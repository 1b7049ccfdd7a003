/** The frame: the port's receiving end handing each tree to the renderer. What is on
    display is decided by the trees answered so far, over all the ports the frame has had. */
module Frame {
  import opened Dom
  import opened Options
  import FC = FrameChannel
  import FR = FrameRuns
  import R = Renderer
  import Utf8

  /** A tree the frame displays when it is handed over. */
  ghost predicate Displayable(p: Policy, t: Tree) {
    IsTreeShaped(t, 0) && (R.ShapedChildrenAreProper(t); RefusalIn(p, t.children).None?)
  }

  /** Displayable is a root of texts and elements, at most 33 levels of them, in which every
      element and attribute is one the renderer builds. */
  lemma DisplayableMeaning(p: Policy, t: Tree)
    ensures Displayable(p, t) <==>
      t.Root? && forall c :: c in t.children ==> Proper(c) && Height(c) <= 33 && Permitted(p, c)
  {
    ShapedMeaning(t);
    if IsTreeShaped(t, 0) {
      R.ShapedChildrenAreProper(t);
      RefusalInIffForbidden(p, t.children);
    }
    hide IsTreeShaped, RefusalIn, Permitted, Height, Proper;
  }

  ghost function Trees(log: seq<FC.Rendering<Tree>>): seq<Tree> {
    seq(|log|, i requires 0 <= i < |log| => log[i].tree)
  }

  ghost predicate Truthful(p: Policy, log: seq<FC.Rendering<Tree>>) {
    forall i :: 0 <= i < |log| ==> (log[i].ok <==> Displayable(p, log[i].tree))
  }

  /** The receiver acts on the message instead of ignoring it. */
  predicate Accepts<T>(r: FC.Receiver<T>, m: FC.Message<T>) {
    !r.closed && FC.IsFrameRender(m, r.ids) && m.seqNo > r.lastSeq
  }

  class DisplayFrame {
    const renderer: R.Renderer
    /** How a failure reads as text. */
    const say: R.CommitResult -> Utf8.Str
    var receiver: FC.FrameReceiver?<Tree>
    /** The trees handed over by ports since replaced. */
    ghost var earlier: seq<Tree>

    constructor (renderer: R.Renderer, say: R.CommitResult -> Utf8.Str)
      requires renderer.Valid() && renderer.current == None
      ensures this.renderer == renderer && receiver == null && Handed() == [] && Valid()
    {
      this.renderer, this.say, receiver, earlier := renderer, say, null, [];
    }

    /** Every tree handed to the renderer, in order. */
    ghost function Handed(): seq<Tree>
      reads this, receiver
    {
      earlier + if receiver == null then [] else Trees(receiver.log)
    }

    /** The display follows from what was handed over, and the answers told the truth. */
    ghost predicate Valid()
      reads this, receiver, renderer, renderer.doc, renderer.doc.made`attrs, renderer.mount, NodesIn(renderer.shapes)
    {
      && renderer.Valid()
      && renderer.current == R.OnDisplay(renderer.policy, Handed())
      && (receiver != null ==> Truthful(renderer.policy, receiver.log))
    }

    /** A new port replaces the old one; the display stays. */
    method Bootstrap(ids: FC.Ids)
      requires Valid()
      modifies this, receiver
      ensures Valid() && Handed() == old(Handed())
      ensures receiver != null && fresh(receiver) && receiver.State() == FC.NewReceiver(ids)
      ensures old(receiver) != null ==> old(receiver).closed
    {
      hide ShowsAll, Forest, NodesIn, Tops;
      NodesInAllocated(renderer.shapes);
      if receiver != null {
        receiver.Dispose();
      }
      earlier := Handed();
      receiver := new FC.FrameReceiver(ids);
      assert Handed() == earlier;
    }

    /** Hand one tree to the renderer, after those already handed over. */
    method Draw(tree: Tree, ghost was: seq<Tree>) returns (outcome: FC.Drawn)
      requires renderer.Valid() && renderer.current == R.OnDisplay(renderer.policy, was)
      modifies renderer, renderer.doc, renderer.mount`childNodes, NodesIn(renderer.shapes)
      ensures renderer.Valid() && renderer.current == R.OnDisplay(renderer.policy, was + [tree])
      ensures old(renderer.doc.log) <= renderer.doc.log
      ensures outcome.Success? <==> Displayable(renderer.policy, tree)
      ensures outcome.Success? ==> renderer.current == Some(tree)
    {
      var result := renderer.Commit(tree);
      outcome := if result.Committed? then FC.Success else FC.Failure(Some(say(result)));
      DisplayOneMore(renderer.policy, was, tree);
    }

    /** A message on the port. The frame answers that it rendered a tree exactly when that
        very tree is on display, and draws nothing for a message it ignores. */
    method OnPortMessage(m: FC.Message<Tree>) returns (ghost drawn: FC.Drawn)
      requires Valid() && receiver != null
      modifies receiver, renderer, renderer.doc, renderer.mount`childNodes, NodesIn(renderer.shapes)
      ensures Valid() && old(renderer.doc.log) <= renderer.doc.log
      ensures receiver.State() == FC.AfterCommand(old(receiver.State()), m, drawn)
      ensures Handed() == old(Handed()) + if Accepts(old(receiver.State()), m) then [m.tree.value] else []
      ensures !Accepts(old(receiver.State()), m) ==> renderer.current == old(renderer.current)
      ensures Accepts(old(receiver.State()), m) ==> (drawn.Success? <==> Displayable(renderer.policy, m.tree.value))
      ensures Accepts(old(receiver.State()), m) && drawn.Success? ==> renderer.current == Some(m.tree.value)
    {
      hide R.Renderer.Valid, R.OnDisplay, Displayable, NodesIn, FC.AckMessage;
      NodesInAllocated(renderer.shapes);
      if receiver.closed || !FC.IsFrameRender(m, receiver.ids) || m.seqNo <= receiver.lastSeq {
        drawn := FC.Success;
        receiver.OnMessage(m, FC.Success);
        return;
      }
      var outcome := Draw(m.tree.value, Handed());
      drawn := outcome;
      NodesInAllocated(renderer.shapes);
      receiver.OnMessage(m, outcome);
      HandedOneMore(old(receiver.log), receiver.log, earlier);
    }
  }

  lemma DisplayOneMore(p: Policy, was: seq<Tree>, t: Tree)
    ensures R.OnDisplay(p, was + [t]) ==
      if !IsTreeShaped(t, 0) then R.OnDisplay(p, was) else if Displayable(p, t) then Some(t) else None
  {
    assert (was + [t])[..|was|] == was;
  }

  lemma HandedOneMore(log: seq<FC.Rendering<Tree>>, log': seq<FC.Rendering<Tree>>, earlier: seq<Tree>)
    requires |log'| == |log| + 1 && log'[..|log|] == log
    ensures earlier + Trees(log') == (earlier + Trees(log)) + [log'[|log|].tree]
  {
    assert Trees(log') == Trees(log) + [log'[|log|].tree];
  }

  /** Right after answering its i-th command the frame shows this tree. */
  ghost predicate ShownAt(p: Policy, earlier: seq<Tree>, log: seq<FC.Rendering<Tree>>, i: nat, t: Tree)
    requires i < |log|
  {
    R.OnDisplay(p, earlier + Trees(log[..i + 1])) == Some(t)
  }

  /** The answer to a command it acts on says whether the tree was displayable: what
      `OnPortMessage` ensures of every message. */
  ghost predicate Honest(p: Policy, y: FR.System<Tree>, e: FR.Event<Tree>) {
    e.ToReceiver? && Accepts(y.r, e.command) ==> (e.drawn.Success? <==> Displayable(p, e.command.tree.value))
  }

  /** A run of the port whose receiving end drives a `DisplayFrame`. */
  ghost predicate Driven(p: Policy, y: FR.System<Tree>, events: seq<FR.Event<Tree>>)
    decreases |events|
  {
    events == [] || (Honest(p, y, events[0]) && Driven(p, FR.Next(y, events[0]), events[1..]))
  }

  lemma {:induction false} DrivenIsTruthful(p: Policy, y: FR.System<Tree>, events: seq<FR.Event<Tree>>)
    requires Driven(p, y, events) && Truthful(p, y.r.log)
    ensures Truthful(p, FR.After(y, events).r.log)
    decreases |events|
  {
    if events != [] {
      hide Displayable, FC.AckMessage;
      DrivenIsTruthful(p, FR.Next(y, events[0]), events[1..]);
    }
  }

  /** From the Worker's end: in any run of a port whose receiving end drives the frame, a
      render call that settled as rendered had its own tree on display when the frame
      answered it. */
  lemma RenderedMeansDisplayed(p: Policy, ids: FC.Ids, events: seq<FR.Event<Tree>>, earlier: seq<Tree>, n: nat)
    requires FR.IsRun(FR.Init<Tree>(ids), events) && Driven(p, FR.Init<Tree>(ids), events)
    requires var s := FR.After(FR.Init<Tree>(ids), events).s; n in s.settled && s.settled[n] == FC.Ok
    ensures var y := FR.After(FR.Init<Tree>(ids), events);
      && 1 <= n <= |y.s.calls| && y.s.calls[n - 1].tree.Some?
      && exists i: nat ::
           i < |y.r.log| && y.r.log[i].seqNo == n && ShownAt(p, earlier, y.r.log, i, y.s.calls[n - 1].tree.value)
  {
    FR.RenderedMeansDrawn(ids, events, n);
    DrivenIsTruthful(p, FR.Init<Tree>(ids), events);
    var y := FR.After(FR.Init<Tree>(ids), events);
    var c := y.s.calls[n - 1];
    var i :| 0 <= i < |y.r.log| && y.r.log[i] == FC.Rendering(c.tree.value, c.generation, c.requestId, n, true);
    HandedOneMore(y.r.log[..i], y.r.log[..i + 1], earlier);
    DisplayOneMore(p, earlier + Trees(y.r.log[..i]), c.tree.value);
    assert ShownAt(p, earlier, y.r.log, i, c.tree.value);
  }
}
