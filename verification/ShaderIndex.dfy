/** CaptureMetadataCreator::HandleShaders: one entry for each shader address, and for each event the
    shaders it uses with the render modes in which it uses them. */
module ShaderIndex {
  import opened Wrappers

  datatype ShaderStage = Cs | Gs | Hs | Ps | Vs

  const STAGES := [Cs, Gs, Hs, Ps, Vs]
  const NUM_STAGES: nat := 5
  const NUM_ENABLE_BITS: nat := 3

  /** bits are the positions that are set in the enable mask. */
  datatype ShaderReference = ShaderReference(shader: nat, stage: ShaderStage, bits: set<nat>)

  /** What the state tracker answers for an event: entry 3 * stage + bit is a shader address, UINT64_MAX
      if the register is not set. */
  datatype Query = Query(isDispatch: bool, addresses: seq<nat>)

  predicate IsQuery(q: Query) {
    |q.addresses| == NUM_STAGES * NUM_ENABLE_BITS
  }

  function StageAt(i: nat): ShaderStage
    requires i < NUM_STAGES * NUM_ENABLE_BITS
  {
    STAGES[i / 3]
  }

  /** Dispatches use the compute stage, and other events use the other stages. */
  predicate IsUsed(q: Query, i: nat)
    requires IsQuery(q) && i < |q.addresses|
  {
    && q.addresses[i] != UINT64_MAX && q.addresses[i] != 0
    && (q.isDispatch <==> StageAt(i) == Cs)
  }

  /** Entry i is a use of the shader at address a. */
  predicate Uses(q: Query, i: nat, a: nat)
    requires IsQuery(q) && i < |q.addresses|
  {
    IsUsed(q, i) && q.addresses[i] == a
  }

  /** Every shader has one entry, and every entry can be found by its address. */
  ghost predicate Interned(shaders: seq<nat>, index: map<nat, nat>) {
    && (forall a {:trigger index[a]} :: a in index ==> index[a] < |shaders| && shaders[index[a]] == a)
    && (forall k: nat {:trigger shaders[k]} :: k < |shaders| ==> shaders[k] in index && index[shaders[k]] == k)
  }

  /** The reference has the enable bits of all uses of its shader among the first n entries, and the
      stage of the first of them. */
  ghost predicate Describes(r: ShaderReference, q: Query, shaders: seq<nat>, n: nat)
    requires IsQuery(q) && n <= |q.addresses|
  {
    && r.shader < |shaders|
    && (forall bit: nat :: bit in r.bits <==> UsesAtBit(q, n, shaders[r.shader], bit))
    && FirstUse(q, n, shaders[r.shader], r.stage)
  }

  ghost predicate UsesAtBit(q: Query, n: nat, a: nat, bit: nat)
    requires IsQuery(q) && n <= |q.addresses|
  {
    exists i: nat :: i < n && Uses(q, i, a) && i % 3 == bit
  }

  ghost predicate FirstUse(q: Query, n: nat, a: nat, stage: ShaderStage)
    requires IsQuery(q) && n <= |q.addresses|
  {
    exists i: nat :: i < n && Uses(q, i, a) && StageAt(i) == stage && forall j: nat :: j < i ==> !Uses(q, j, a)
  }

  /** One reference for each shader used among the first n entries. */
  ghost predicate AreReferences(refs: seq<ShaderReference>, q: Query, shaders: seq<nat>, index: map<nat, nat>, n: nat)
    requires IsQuery(q) && n <= |q.addresses|
  {
    && (forall k {:trigger refs[k]} :: 0 <= k < |refs| ==> Describes(refs[k], q, shaders, n))
    && (forall k, l {:trigger refs[k], refs[l]} :: 0 <= k < l < |refs| ==> refs[k].shader != refs[l].shader)
    && (forall i: nat {:trigger IsUsed(q, i)} :: i < n && IsUsed(q, i) ==>
          q.addresses[i] in index && exists k :: 0 <= k < |refs| && refs[k].shader == index[q.addresses[i]])
  }

  // ---------- one more entry ----------

  lemma NotUsedStep(r: ShaderReference, q: Query, shaders: seq<nat>, more: seq<nat>, n: nat)
    requires IsQuery(q) && n < |q.addresses| && Describes(r, q, shaders, n) && shaders <= more
    requires !Uses(q, n, shaders[r.shader])
    ensures Describes(r, q, more, n + 1)
  {
    var a := shaders[r.shader];
    forall bit: nat
      ensures UsesAtBit(q, n + 1, a, bit) <==> UsesAtBit(q, n, a, bit)
    {
      if UsesAtBit(q, n + 1, a, bit) {
        var i: nat :| i < n + 1 && Uses(q, i, a) && i % 3 == bit;
        assert i < n;
      }
    }
    var i: nat :| i < n && Uses(q, i, a) && StageAt(i) == r.stage && forall j: nat :: j < i ==> !Uses(q, j, a);
    assert FirstUse(q, n + 1, a, r.stage);
  }

  lemma UsedStep(r: ShaderReference, q: Query, shaders: seq<nat>, n: nat)
    requires IsQuery(q) && n < |q.addresses| && Describes(r, q, shaders, n) && Uses(q, n, shaders[r.shader])
    ensures Describes(r.(bits := r.bits + {n % 3}), q, shaders, n + 1)
  {
    var a := shaders[r.shader];
    forall bit: nat
      ensures UsesAtBit(q, n + 1, a, bit) <==> UsesAtBit(q, n, a, bit) || bit == n % 3
    {
      if UsesAtBit(q, n + 1, a, bit) {
        var i: nat :| i < n + 1 && Uses(q, i, a) && i % 3 == bit;
        assert i < n || bit == n % 3;
      }
    }
    var i: nat :| i < n && Uses(q, i, a) && StageAt(i) == r.stage && forall j: nat :: j < i ==> !Uses(q, j, a);
    assert FirstUse(q, n + 1, a, r.stage);
  }

  lemma NewReference(q: Query, shaders: seq<nat>, n: nat, shader: nat)
    requires IsQuery(q) && n < |q.addresses| && shader < |shaders| && Uses(q, n, shaders[shader])
    requires forall i: nat :: i < n ==> !Uses(q, i, shaders[shader])
    ensures Describes(ShaderReference(shader, StageAt(n), {n % 3}), q, shaders, n + 1)
  {
    var next := n + 1;
    forall bit: nat
      ensures UsesAtBit(q, next, shaders[shader], bit) <==> bit == n % 3
    {
    }
    assert FirstUse(q, n + 1, shaders[shader], StageAt(n));
  }

  lemma EntryNotUsed(refs: seq<ShaderReference>, q: Query, shaders: seq<nat>, index: map<nat, nat>, n: nat)
    requires IsQuery(q) && n < |q.addresses| && AreReferences(refs, q, shaders, index, n) && !IsUsed(q, n)
    ensures AreReferences(refs, q, shaders, index, n + 1)
  {
    hide Describes;
    forall k | 0 <= k < |refs|
      ensures Describes(refs[k], q, shaders, n + 1)
    {
      Describable(refs[k], q, shaders, n);
      NotUsedStep(refs[k], q, shaders, shaders, n);
    }
  }

  lemma Describable(r: ShaderReference, q: Query, shaders: seq<nat>, n: nat)
    requires IsQuery(q) && n <= |q.addresses| && Describes(r, q, shaders, n)
    ensures r.shader < |shaders| && exists i: nat :: i < n && Uses(q, i, shaders[r.shader])
  {
  }

  /** Entry n uses a shader that has a reference already. */
  lemma EntryFound(refs: seq<ShaderReference>, q: Query, shaders: seq<nat>, index: map<nat, nat>, n: nat, k: nat)
    requires IsQuery(q) && n < |q.addresses| && AreReferences(refs, q, shaders, index, n) && Interned(shaders, index)
    requires IsUsed(q, n) && q.addresses[n] in index && k < |refs| && refs[k].shader == index[q.addresses[n]]
    ensures AreReferences(refs[k := refs[k].(bits := refs[k].bits + {n % 3})], q, shaders, index, n + 1)
  {
    hide Describes;
    var after := refs[k := refs[k].(bits := refs[k].bits + {n % 3})];
    forall l | 0 <= l < |refs|
      ensures Describes(after[l], q, shaders, n + 1)
    {
      Describable(refs[l], q, shaders, n);
      if l == k {
        UsedStep(refs[k], q, shaders, n);
      } else {
        assert shaders[refs[l].shader] != q.addresses[n];
        NotUsedStep(refs[l], q, shaders, shaders, n);
      }
    }
    forall i: nat | i < n + 1 && IsUsed(q, i)
      ensures q.addresses[i] in index && exists l :: 0 <= l < |after| && after[l].shader == index[q.addresses[i]]
    {
      if i < n {
        var l :| 0 <= l < |refs| && refs[l].shader == index[q.addresses[i]];
        assert after[l].shader == index[q.addresses[i]];
      } else {
        assert after[k].shader == index[q.addresses[i]];
      }
    }
  }

  /** Entry n uses a shader without a reference, whose entry may be new. */
  lemma EntryAdded(refs: seq<ShaderReference>, q: Query, shaders: seq<nat>, more: seq<nat>, index: map<nat, nat>,
                   index': map<nat, nat>, n: nat)
    requires IsQuery(q) && n < |q.addresses| && AreReferences(refs, q, shaders, index, n)
    requires Interned(shaders, index) && Interned(more, index') && shaders <= more
    requires IsUsed(q, n) && q.addresses[n] in index' && forall k :: 0 <= k < |refs| ==>
      refs[k].shader != index'[q.addresses[n]]
    ensures AreReferences(refs + [ShaderReference(index'[q.addresses[n]], StageAt(n), {n % 3})], q, more, index', n + 1)
  {
    hide Describes;
    var shader := index'[q.addresses[n]];
    var after := refs + [ShaderReference(shader, StageAt(n), {n % 3})];
    forall a | a in index
      ensures a in index' && index'[a] == index[a]
    {
      assert more[index[a]] == shaders[index[a]];
    }
    forall i: nat | i < n
      ensures !Uses(q, i, q.addresses[n])
    {
      assert IsUsed(q, i) ==> q.addresses[i] in index;
    }
    NewReference(q, more, n, shader);
    forall l | 0 <= l < |after|
      ensures Describes(after[l], q, more, n + 1)
    {
      if l < |refs| {
        Describable(refs[l], q, shaders, n);
        assert shaders[refs[l].shader] == more[refs[l].shader];
        NotUsedStep(refs[l], q, shaders, more, n);
      }
    }
    forall i: nat | i < n + 1 && IsUsed(q, i)
      ensures q.addresses[i] in index' && exists l :: 0 <= l < |after| && after[l].shader == index'[q.addresses[i]]
    {
      if i < n {
        var l :| 0 <= l < |refs| && refs[l].shader == index[q.addresses[i]];
        assert after[l].shader == index'[q.addresses[i]];
      } else {
        assert after[|refs|].shader == index'[q.addresses[i]];
      }
    }
  }

  // ---------- the algorithm ----------

  class ShaderTable {
    var shaders: seq<nat>        // addresses, one for each shader
    var index: map<nat, nat>     // where the shader of an address is

    ghost predicate Valid()
      reads this
    {
      Interned(shaders, index)
    }

    constructor ()
      ensures Valid() && shaders == []
    {
      shaders, index := [], map[];
    }

    /** Shaders are only ever added, so the references of earlier events stay what they were. */
    method HandleShaders(q: Query) returns (refs: seq<ShaderReference>)
      requires Valid() && IsQuery(q)
      modifies this
      ensures Valid() && old(shaders) <= shaders
      ensures AreReferences(refs, q, shaders, index, |q.addresses|)
    {
      hide Interned, AreReferences;
      refs := [];
      NoReferences(q, shaders, index);
      for stage := 0 to NUM_STAGES
        invariant Valid() && old(shaders) <= shaders && AreReferences(refs, q, shaders, index, 3 * stage)
      {
        for bit := 0 to NUM_ENABLE_BITS
          invariant Valid() && old(shaders) <= shaders && AreReferences(refs, q, shaders, index, 3 * stage + bit)
        {
          refs := HandleEntry(q, refs, 3 * stage + bit);
        }
      }
    }

    method HandleEntry(q: Query, refs: seq<ShaderReference>, n: nat) returns (r: seq<ShaderReference>)
      requires Valid() && IsQuery(q) && n < |q.addresses| && AreReferences(refs, q, shaders, index, n)
      modifies this
      ensures Valid() && old(shaders) <= shaders && AreReferences(r, q, shaders, index, n + 1)
    {
      hide Describes;
      r := refs;
      if !IsUsed(q, n) {
        EntryNotUsed(refs, q, shaders, index, n);
        return;
      }
      var a := q.addresses[n];
      if a in index {
        var shader := index[a];
        var found := FindReference(refs, shader);
        match found
        case Some(k) =>
          EntryFound(refs, q, shaders, index, n, k);
          r := refs[k := refs[k].(bits := refs[k].bits + {n % 3})];
        case None =>
          EntryAdded(refs, q, shaders, shaders, index, index, n);
          r := refs + [ShaderReference(shader, StageAt(n), {n % 3})];
      } else {
        ghost var before, indexBefore := shaders, index;
        NoneRefers(refs, q, shaders, index, n);
        index := index[a := |shaders|];
        shaders := shaders + [a];
        EntryAdded(refs, q, before, shaders, indexBefore, index, n);
        r := refs + [ShaderReference(index[a], StageAt(n), {n % 3})];
      }
    }

    static method FindReference(refs: seq<ShaderReference>, shader: nat) returns (found: Option<nat>)
      ensures match found
        case Some(k) => k < |refs| && refs[k].shader == shader
        case None => forall k :: 0 <= k < |refs| ==> refs[k].shader != shader
    {
      for k := 0 to |refs|
        invariant forall l :: 0 <= l < k ==> refs[l].shader != shader
      {
        if refs[k].shader == shader {
          return Some(k);
        }
      }
      return None;
    }
  }

  lemma NoReferences(q: Query, shaders: seq<nat>, index: map<nat, nat>)
    requires IsQuery(q)
    ensures AreReferences([], q, shaders, index, 0)
  {
  }

  lemma NoneRefers(refs: seq<ShaderReference>, q: Query, shaders: seq<nat>, index: map<nat, nat>, n: nat)
    requires IsQuery(q) && n <= |q.addresses| && AreReferences(refs, q, shaders, index, n)
    ensures forall k :: 0 <= k < |refs| ==> refs[k].shader < |shaders|
  {
  }

  /** Two entries never stand for the same shader. */
  lemma EntriesDiffer(shaders: seq<nat>, index: map<nat, nat>, k: nat, l: nat)
    requires Interned(shaders, index) && k < l < |shaders|
    ensures shaders[k] != shaders[l]
  {
    assert index[shaders[k]] == k && index[shaders[l]] == l;
  }

  /** Dispatches use the compute shaders, which come first, and other events use all others. */
  ghost predicate UsesShader(q: Query, a: nat, i: nat)
    requires IsQuery(q)
  {
    && i < 15 && q.addresses[i] == a && a != 0 && a != UINT64_MAX
    && if q.isDispatch then i < 3 else 3 <= i
  }

  ghost predicate HasBits(q: Query, a: nat, bits: set<nat>)
    requires IsQuery(q)
  {
    forall bit: nat :: bit in bits <==> exists i: nat :: UsesShader(q, a, i) && i % 3 == bit
  }

  ghost predicate HasStage(q: Query, a: nat, stage: ShaderStage)
    requires IsQuery(q)
  {
    exists i: nat ::
      UsesShader(q, a, i) && stage == [Cs, Gs, Hs, Ps, Vs][i / 3] && forall j: nat :: UsesShader(q, a, j) ==> i <= j
  }

  /** The references of an event, by address: one for each shader that it uses, with the enable bits of all its
      uses and the stage of the first. */
  lemma ReferencesAre(refs: seq<ShaderReference>, q: Query, shaders: seq<nat>, index: map<nat, nat>, a: nat)
    requires IsQuery(q) && Interned(shaders, index) && AreReferences(refs, q, shaders, index, |q.addresses|)
    ensures (exists i: nat :: UsesShader(q, a, i)) <==>
      exists k {:trigger refs[k]} :: 0 <= k < |refs| && refs[k].shader < |shaders| && shaders[refs[k].shader] == a
    ensures forall k {:trigger refs[k]} ::
      0 <= k < |refs| && refs[k].shader < |shaders| && shaders[refs[k].shader] == a ==>
        HasBits(q, a, refs[k].bits) && HasStage(q, a, refs[k].stage)
  {
    hide Describes, HasBits;
    UsesIff(q, a);
    if exists i: nat :: UsesShader(q, a, i) {
      var i: nat :| UsesShader(q, a, i);
      assert IsUsed(q, i);
      var k :| 0 <= k < |refs| && refs[k].shader == index[q.addresses[i]];
      assert shaders[refs[k].shader] == a;
    }
    forall k | 0 <= k < |refs|
      ensures refs[k].shader < |shaders| &&
        (shaders[refs[k].shader] == a ==> HasBits(q, a, refs[k].bits) && HasStage(q, a, refs[k].stage))
    {
      ReferenceIs(refs[k], q, shaders);
    }
  }

  lemma UsesIff(q: Query, a: nat)
    requires IsQuery(q)
    ensures forall i: nat :: i < 15 ==>
      (Uses(q, i, a) <==> UsesShader(q, a, i)) && StageAt(i) == [Cs, Gs, Hs, Ps, Vs][i / 3]
  {
  }

  lemma ReferenceIs(r: ShaderReference, q: Query, shaders: seq<nat>)
    requires IsQuery(q) && Describes(r, q, shaders, |q.addresses|)
    ensures r.shader < |shaders| && HasBits(q, shaders[r.shader], r.bits) && HasStage(q, shaders[r.shader], r.stage)
  {
    var a := shaders[r.shader];
    UsesIff(q, a);
    hide StageAt, UsesShader;
    forall bit: nat
      ensures bit in r.bits <==> exists i: nat :: UsesShader(q, a, i) && i % 3 == bit
    {
      if UsesAtBit(q, 15, a, bit) {
        var i: nat :| i < 15 && Uses(q, i, a) && i % 3 == bit;
        assert UsesShader(q, a, i);
      }
    }
  }
}
