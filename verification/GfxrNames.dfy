/** What each command does, from its name alone. */
module GfxrNames {
  import opened GfxrRows
  import opened GfxrHierarchy

  /** Containing is what it says. */
  lemma {:induction false} ContainsIff(s: string, part: string)
    ensures Contains(s, part) <==> exists i :: 0 <= i <= |s| && part <= s[i..]
  {
    if part <= s {
      assert s[0..] == s;
    } else if s != [] {
      ContainsIff(s[1..], part);
      if Contains(s[1..], part) {
        var i :| 0 <= i <= |s[1..]| && part <= s[1..][i..];
        assert s[1..][i..] == s[i + 1..];
      }
      if exists i :: 0 <= i <= |s| && part <= s[i..] {
        var i :| 0 <= i <= |s| && part <= s[i..];
        assert i > 0 && s[1..][i - 1..] == s[i..];
      }
    } else {
      assert forall i :: 0 <= i <= |s| ==> s[i..] == s;
    }
  }

  // ---------- the names ----------

  predicate IsBeginBuffer(name: string) {
    name == "vkBeginCommandBuffer"
  }

  predicate IsEndBuffer(name: string) {
    name == "vkEndCommandBuffer"
  }

  predicate NamesLabel(name: string) {
    Contains(name, "BeginDebugUtilsLabelEXT") || Contains(name, "EndDebugUtilsLabelEXT")
  }

  predicate NamesDraw(name: string) {
    Contains(name, "vkCmdDraw") || Contains(name, "vkCmdDispatch")
  }

  predicate NamesPass(name: string) {
    Contains(name, "vkCmdBeginRenderPass") || Contains(name, "vkCmdEndRenderPass")
  }

  predicate OpensLabel(name: string) {
    !IsBeginBuffer(name) && !IsEndBuffer(name) && Contains(name, "BeginDebugUtilsLabelEXT")
  }

  predicate ClosesLabel(name: string) {
    && !IsBeginBuffer(name) && !IsEndBuffer(name)
    && !Contains(name, "BeginDebugUtilsLabelEXT") && Contains(name, "EndDebugUtilsLabelEXT")
  }

  /** The command is neither about a buffer nor about a label. */
  predicate IsWork(name: string) {
    !IsBeginBuffer(name) && !IsEndBuffer(name) && !NamesLabel(name)
  }

  predicate IsDraw(name: string) {
    IsWork(name) && NamesDraw(name)
  }

  predicate OpensPass(name: string) {
    IsWork(name) && !NamesDraw(name) && Contains(name, "vkCmdBeginRenderPass")
  }

  predicate ClosesPass(name: string) {
    && IsWork(name) && !NamesDraw(name)
    && !Contains(name, "vkCmdBeginRenderPass") && Contains(name, "vkCmdEndRenderPass")
  }

  predicate IsPlain(name: string) {
    IsWork(name) && !NamesDraw(name) && !NamesPass(name)
  }

  /** The kind of the node of a plain command. */
  function PlainKind(name: string): NodeType {
    if Contains(name, "vkCmdCopyBuffer") then CopyBufferNode
    else if Contains(name, "vkCmdClearAttachments") then ClearAttachmentsNode
    else if Contains(name, "vkCmdClearColorImage") then ClearColorImageNode
    else if Contains(name, "vkCmdClearDepthStencilImage") then ClearDepthStencilImageNode
    else if Contains(name, "vkCmdResolveImage") then ResolveImageNode
    else CommandNode
  }

  lemma Classifies(name: string)
    ensures Classify(name) == BeginBuffer <==> IsBeginBuffer(name)
    ensures Classify(name) == EndBuffer <==> IsEndBuffer(name)
    ensures Classify(name) == BeginLabel <==> OpensLabel(name)
    ensures Classify(name) == EndLabel <==> ClosesLabel(name)
    ensures Classify(name) == Draw <==> IsDraw(name)
    ensures Classify(name) == BeginPass <==> OpensPass(name)
    ensures Classify(name) == EndPass <==> ClosesPass(name)
    ensures Classify(name).Plain? <==> IsPlain(name)
    ensures Classify(name).Plain? ==> Classify(name).kind == PlainKind(name)
  {
    hide Contains;
  }

  // ---------- what the commands do ----------

  /** Where a command goes that has no place of its own: the innermost open label or pass, or else the
      command buffer. */
  function Innermost(p: Progress): nat {
    if |p.stack| > 0 then p.stack[|p.stack| - 1] else p.buffer
  }

  /** One node under the parent, then the nodes of the arguments. */
  ghost predicate Adds(p: Progress, q: Progress, node: Node, parent: nat, args: Json) {
    && |p.rows| < |q.rows| && q.rows[..|p.rows|] == p.rows && q.rows[|p.rows|] == Row(node, parent)
    && q.rows[|p.rows| + 1..] == ArgRows(args, |p.rows|, |p.rows| + 1) && q.submit == p.submit
  }

  ghost predicate Pops(p: Progress, q: Progress) {
    if p.stack == [] then q.stack == [] else |q.stack| == |p.stack| - 1 && q.stack == p.stack[..|q.stack|]
  }

  /** The kind and the place of the node that a command makes, and what it does to the stack. */
  ghost predicate Does(p: Progress, c: Command, q: Progress) {
    var name, args, n := c.name, c.args, |p.rows|;
    && (IsBeginBuffer(name) ==>
          Adds(p, q, Node(BeginCommandBufferNode, Name(name)), p.submit, args) && q.buffer == n && q.stack == p.stack)
    && (!IsBeginBuffer(name) ==> q.buffer == p.buffer)
    && (IsEndBuffer(name) ==> Adds(p, q, Node(EndCommandBufferNode, Name(name)), p.buffer, args) && q.stack == p.stack)
    && (OpensLabel(name) ==>
          Adds(p, q, Node(BeginLabelNode, NoDesc), Innermost(p), args) && q.stack == p.stack + [n])
    && (ClosesLabel(name) ==>
          && q.rows == p.rows && q.submit == p.submit
          && if p.stack != [] && IsLabel(p, Innermost(p)) then Pops(p, q) else q.stack == p.stack)
    && (IsDraw(name) ==> Adds(p, q, Node(DrawNode, Name(name)), Innermost(p), args) && q.stack == p.stack)
    && (OpensPass(name) ==>
          Adds(p, q, Node(BeginRenderPassNode, Name(name)), Innermost(p), args) && q.stack == p.stack + [n])
    && (ClosesPass(name) ==> Adds(p, q, Node(EndRenderPassNode, Name(name)), Innermost(p), args) && Pops(p, q))
    && (IsPlain(name) ==> Adds(p, q, Node(PlainKind(name), Name(name)), Innermost(p), args) && q.stack == p.stack)
  }

  predicate IsLabel(p: Progress, i: nat) {
    i < |p.rows| && p.rows[i].node.kind == BeginLabelNode
  }

  /** For all names, by the tests of the source in its order. */
  lemma CommandDoes(p: Progress, c: Command)
    ensures Does(p, c, AfterCommand(p, c))
  {
    hide ArgRows, Classify, PlainKind, IsBeginBuffer, IsEndBuffer, OpensLabel, ClosesLabel, IsDraw, OpensPass,
      ClosesPass, IsPlain;
    Classifies(c.name);
    var q, n := AfterCommand(p, c), |p.rows|;
    if q.rows != p.rows {
      assert |q.rows| > n && q.rows == p.rows + [q.rows[n]] + ArgRows(c.args, n, n + 1);
    }
  }
}
