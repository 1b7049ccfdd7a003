/** What the Worker answers, told by the request, the checker's verdict and the frame's
    answer; and that an accepted tree the frame can show is reported as rendered. */
module WorkerReplies {
  import opened Acceptance
  import opened Dom
  import opened FrameAnswers
  import opened Options
  import opened PolicyWorker
  import F = Frame
  import FC = FrameChannel
  import FR = FrameRuns
  import PS = PolicySession

  /** A reply under the request's own identities. */
  predicate RepliesTo(reply: PS.Reply<Tree>, m: Asked) {
    && reply.Reply? && m.Asked? && reply.protocol == 1
    && reply.instanceId == Some(m.instanceId) && reply.sessionId == Some(m.sessionId)
    && reply.generation == m.generation && reply.requestId == m.requestId
  }

  /** One that grants nothing: no record and no tree. */
  predicate Grants(reply: PS.Reply<Tree>) {
    reply.Reply? && (reply.acceptance.Token? || reply.tree.Some? || reply.authority != "")
  }

  /** The request asks for this Worker's way of delivering. */
  predicate DeliveryFits(w: Worker, m: Asked) {
    m.Asked? && ((m.delivery.ToFrame? && w.ports != []) || (m.delivery.ToHost? && w.ports == []))
  }

  /** Exactly one reply, at once, and nothing else changes. */
  ghost predicate JustReplies(w: Worker, w': Worker) {
    |w'.out| == |w.out| + 1 && w.out <= w'.out && w' == w.(out := w'.out)
  }

  /** What is refused is refused at once, under the request's identities if it has any: a
      request for the other way of delivering, of no known kind, or for a document that the
      checker rejects, which says whether the checker is poisoned. */
  lemma RefusedMeaning(w: Worker, m: Asked, v: Verdict, post: FC.Post)
    requires !w.closed && !(DeliveryFits(w, m) && m.preprocess && v.Accepted?)
    ensures var w' := Next(w, Request(m, v, post));
      && JustReplies(w, w')
      && var reply := w'.out[|w.out|];
        && !Grants(reply)
        && (m.NotAnEnvelope? ==> reply.kind == PS.RefusedKind && reply.instanceId == None && reply.sessionId == None)
        && (m.Asked? ==> RepliesTo(reply, m))
        && (m.Asked? && DeliveryFits(w, m) && !m.preprocess ==> reply.kind == PS.RefusedKind)
        && (m.Asked? && (!DeliveryFits(w, m) || m.preprocess) ==>
              reply.kind == PS.ResultKind && reply.status == PS.RejectedStatus)
        && (m.Asked? ==> (reply.poisoned <==> DeliveryFits(w, m) && m.preprocess && v.poisoned))
  {
  }

  /** Without a port an accepted tree goes to the host, with its record and authority. */
  lemma ToHostMeaning(w: Worker, m: Asked, v: Verdict, post: FC.Post)
    requires !w.closed && DeliveryFits(w, m) && m.preprocess && v.Accepted? && w.ports == []
    ensures var w' := Next(w, Request(m, v, post));
      && |w'.out| == |w.out| + 1 && w.out <= w'.out && w'.accepted == w.accepted + {(m.generation, m.requestId, v.tree)}
      && w' == w.(out := w'.out, accepted := w'.accepted)
      && var reply := w'.out[|w.out|];
        && RepliesTo(reply, m) && reply.kind == PS.ResultKind && reply.status == PS.AcceptedStatus
        && reply.authority == v.authority && reply.acceptance == v.acceptance && reply.tree == Some(v.tree)
  {
  }

  /** With a port it goes to the frame: one call more on the current port, for the request's
      generation and id. Unless posting threw, its reply, with the tree taken out, waits. */
  lemma ToFrameMeaning(w: Worker, m: Asked, v: Verdict, post: FC.Post)
    requires !w.closed && DeliveryFits(w, m) && m.preprocess && v.Accepted? && w.ports != []
    ensures var (w', i) := (Next(w, Request(m, v, post)), |w.ports| - 1);
      var n := SystemOf(w.ports[i]).s.seqNo + 1;
      && w'.accepted == w.accepted + {(m.generation, m.requestId, v.tree)} && w'.closed == w.closed
      && w'.ports == w.ports[i := w.ports[i].(events := w.ports[i].events +
           [FR.CallRender(FC.Call(Some(v.tree), m.generation, m.requestId), post)])]
      && (post.Posted? ==>
            && w'.out == w.out && w'.served.Keys == w.served.Keys + {n}
            && (forall k :: k in w.served && k != n ==> w'.served[k] == w.served[k])
            && RepliesTo(w'.served[n], m) && w'.served[n].kind == PS.ResultKind && w'.served[n].tree == None
            && w'.served[n].authority == v.authority && w'.served[n].acceptance == v.acceptance)
      && (post.Throws? ==>
            && |w'.out| == |w.out| + 1 && w.out <= w'.out && w'.served == w.served
            && RepliesTo(w'.out[|w.out|], m) && !Grants(w'.out[|w.out|])
            && w'.out[|w.out|].kind == PS.ResultKind && w'.out[|w.out|].status == PS.RejectedStatus)
  {
    hide SystemOf;
  }

  /** The frame's answer to a waiting call is passed on at once: `rendered`, with the record,
      when the frame rendered it, and a rejection that grants nothing when it refused. */
  lemma AnsweredMeaning(w: Worker, i: nat, ack: FC.Message<Tree>)
    requires !w.closed && i + 1 == |w.ports| && !SystemOf(w.ports[i]).s.closed
    requires AnswersCall(SystemOf(w.ports[i]).s, ack) && ack.seqNo in w.served
    ensures var (w', rest) := (Next(w, PortEvent(i, FR.ToSender(ack))), w.served[ack.seqNo]);
      && |w'.out| == |w.out| + 1 && w.out <= w'.out && w'.served == w.served - {ack.seqNo}
      && w'.accepted == w.accepted && w'.closed == w.closed
      && (ack.kind == FC.Rendered ==> w'.out[|w.out|] == rest.(status := PS.RenderedStatus))
      && (ack.kind == FC.Refused ==>
            w'.out[|w.out|] == rest.(status := PS.RejectedStatus, poisoned := false, authority := "",
                                     acceptance := NotARecord))
  {
    AckMeaning(SystemOf(w.ports[i]).s, ack);
    hide SystemOf, FC.AfterAck, AnswersCall;
    AnswerNumber(SystemOf(w.ports[i]).s, ack);
  }

  lemma AnswerNumber(s: FC.Sender<Tree>, ack: FC.Message<Tree>)
    requires AnswersCall(s, ack)
    ensures ack.Message? && ack.seqNo >= 0 && ack.seqNo in s.pending
    ensures ack.kind == FC.Rendered || ack.kind == FC.Refused
  {
  }

  /** Whatever else happens on a port is passed on to nobody. */
  lemma UnansweredMeaning(w: Worker, i: nat, e: FR.Event<Tree>)
    requires i < |w.ports|
    requires w.closed || i + 1 < |w.ports| || !e.ToSender? || !e.reply.Message? || e.reply.seqNo < 0
          || (e.reply.seqNo as int) !in w.served
    ensures var w' := Next(w, PortEvent(i, e));
      w'.out == w.out && w'.served == w.served && w'.accepted == w.accepted
  {
    hide SystemOf, FR.Next;
  }

  /** A new port takes the place of the old, whose calls are answered no more; a closed
      Worker does nothing at all. */
  lemma AttachMeaning(w: Worker, ids: FC.Ids)
    ensures var w' := Next(w, AttachFrame(ids));
      && (w.closed ==> w' == w)
      && (!w.closed ==>
            && |w'.ports| == |w.ports| + 1 && w'.ports[|w.ports|] == Port(ids, [])
            && w'.served == map[] && w'.out == w.out && w'.accepted == w.accepted
            && (forall i :: 0 <= i < |w.ports| - 1 ==> w'.ports[i] == w.ports[i])
            && (w.ports != [] ==>
                  w'.ports[|w.ports| - 1] == w.ports[|w.ports| - 1].(
                    events := w.ports[|w.ports| - 1].events + [FR.DisposeSender])))
    ensures w.closed ==> forall m, v, post :: Next(w, Request(m, v, post)) == w
  {
  }

  /** Before its checker is ready, and after it failed, a request may be turned away, which
      grants nothing; closing drops the port's calls and answers nobody ever after. */
  lemma ClosingMeaning(w: Worker, m: Asked)
    requires m.Asked?
    ensures var w' := Next(w, TurnAway(m));
      && (w.closed ==> w' == w)
      && (!w.closed ==>
            && JustReplies(w, w') && RepliesTo(w'.out[|w.out|], m) && !Grants(w'.out[|w.out|])
            && w'.out[|w.out|].kind == PS.ResultKind && w'.out[|w.out|].status == PS.RejectedStatus)
    ensures var w' := Next(w, Close);
      && w'.closed && w'.out == w.out && w'.accepted == w.accepted && |w'.ports| == |w.ports|
      && (w.closed ==> w' == w)
      && (!w.closed && w.ports != [] ==>
            w'.ports == w.ports[|w.ports| - 1 := w.ports[|w.ports| - 1].(
              events := w.ports[|w.ports| - 1].events + [FR.DisposeSender])])
  {
  }

  // ----- from the request to the reply -----

  /** The current port can carry a command and its answer. */
  ghost predicate Open(w: Worker) {
    && !w.closed && w.ports != []
    && var y := SystemOf(w.ports[|w.ports| - 1]);
      !y.s.closed && !y.r.closed && FC.IdsOk(y.s.ids) && y.r.lastSeq <= y.s.seqNo
  }

  /** The port holds a command that its receiving end will act on, for a call that waits. */
  ghost predicate Carries(p: Policy, w: Worker, i: nat, command: FC.Message<Tree>) {
    && !w.closed && i + 1 == |w.ports| && Sane(p, w.ports[i])
    && var y := SystemOf(w.ports[i]);
      && !y.s.closed && !y.r.closed && y.s.ids == y.r.ids
      && ActsOn(y.r, command) && command in y.s.posted
      && command.seqNo in y.s.pending && y.s.pending[command.seqNo] == FC.Entry(command.generation, command.requestId)
      && command.seqNo in w.served
  }

  /** The frame's answer has come back on the port, and says it rendered the command's tree. */
  ghost predicate Brings(p: Policy, w: Worker, i: nat, ack: FC.Message<Tree>) {
    && !w.closed && i + 1 == |w.ports| && !SystemOf(w.ports[i]).s.closed
    && AnswersCall(SystemOf(w.ports[i]).s, ack) && ack.kind == FC.Rendered && ack in SystemOf(w.ports[i]).r.posted
    && ack.seqNo in w.served
  }

  /** At the port alone: the call is pending, its message posted and new to the other end. */
  lemma CallCarried(y: FR.System<Tree>, c: FC.Call<Tree>) returns (command: FC.Message<Tree>)
    requires !y.s.closed && !y.r.closed && y.s.ids == y.r.ids && FC.IdsOk(y.s.ids) && y.r.lastSeq <= y.s.seqNo
    requires c.tree.Some? && c.generation >= 0 && c.requestId >= 0
    ensures var y' := FR.Next(y, FR.CallRender(c, FC.Posted));
      && !y'.s.closed && !y'.r.closed && y'.s.ids == y'.r.ids
      && ActsOn(y'.r, command) && command in y'.s.posted
      && command.seqNo == y.s.seqNo + 1 && command.tree == c.tree
      && command.seqNo in y'.s.pending
      && y'.s.pending[command.seqNo] == FC.Entry(command.generation, command.requestId)
  {
    RenderMeaning(y.s, c, FC.Posted);
    var sent := FC.AfterRender(y.s, c, FC.Posted);
    command := sent.posted[|y.s.posted|];
  }

  lemma Handed(p: Policy, w: Worker, m: Asked, v: Verdict) returns (command: FC.Message<Tree>)
    requires PolicyWorker.Inv(p, w) && Open(w) && DeliveryFits(w, m) && m.preprocess && v.Accepted?
    ensures var w' := Next(w, Request(m, v, FC.Posted));
      && Carries(p, w', |w.ports| - 1, command) && command.tree == Some(v.tree) && w'.out == w.out
      && RepliesTo(w'.served[command.seqNo], m) && w'.served[command.seqNo].kind == PS.ResultKind
      && w'.served[command.seqNo].tree == None && w'.served[command.seqNo].authority == v.authority
      && w'.served[command.seqNo].acceptance == v.acceptance
  {
    var i, y := |w.ports| - 1, SystemOf(w.ports[|w.ports| - 1]);
    var call := FC.Call(Some(v.tree), m.generation, m.requestId);
    hide PolicyWorker.Inv, SystemOf, Sane, ActsOn, FR.Next, FC.IdsOk, RepliesTo, Next, DeliveryFits, F.Displayable;
    CurrentPort(p, w);
    command := CallCarried(y, call);
    PortTakes(p, w.ports[i], call);
    ToFrameMeaning(w, m, v, FC.Posted);
  }

  lemma PortTakes(p: Policy, port: Port, c: FC.Call<Tree>)
    requires Sane(p, port)
    ensures var port' := port.(events := port.events + [FR.CallRender(c, FC.Posted)]);
      Sane(p, port') && SystemOf(port') == FR.Next(SystemOf(port), FR.CallRender(c, FC.Posted))
  {
    hide Sane, SystemOf, FR.Next;
    PortGoesOn(p, port, FR.CallRender(c, FC.Posted));
  }

  lemma CurrentPort(p: Policy, w: Worker)
    requires PolicyWorker.Inv(p, w) && w.ports != []
    ensures var port := w.ports[|w.ports| - 1]; Sane(p, port) && SystemOf(port).s.ids == SystemOf(port).r.ids
  {
    var port := w.ports[|w.ports| - 1];
    hide AllWait, AllBacked, Sane, SystemOf, FR.Inv;
    assert Sane(p, port);
    PortInv(p, port);
    SameIds(SystemOf(port));
  }

  lemma DrawnNext(p: Policy, w: Worker, i: nat, command: FC.Message<Tree>) returns (ack: FC.Message<Tree>)
    requires Carries(p, w, i, command) && F.Displayable(p, command.tree.value)
    ensures Enabled(p, w, PortEvent(i, FR.ToReceiver(command, FC.Success)))
    ensures var w' := Next(w, PortEvent(i, FR.ToReceiver(command, FC.Success)));
      Brings(p, w', i, ack) && ack.seqNo == command.seqNo && w'.out == w.out && w'.served == w.served
  {
    var y, e := SystemOf(w.ports[i]), FR.ToReceiver(command, FC.Success);
    hide F.Displayable, SystemOf, Sane, FC.AfterCommand;
    CommandMeaning(y.r, command, FC.Success);
    PortGoesOn(p, w.ports[i], e);
    UnansweredMeaning(w, i, e);
    PortMoves(w, i, e);
    ack := SystemOf(Next(w, PortEvent(i, e)).ports[i]).r.posted[|y.r.posted|];
  }

  lemma PortMoves(w: Worker, i: nat, e: FR.Event<Tree>)
    requires i < |w.ports|
    ensures var w' := Next(w, PortEvent(i, e));
      |w'.ports| == |w.ports| && w'.closed == w.closed
      && w'.ports[i] == w.ports[i].(events := w.ports[i].events + [e])
  {
    hide SystemOf, FR.Next;
  }

  /** Served, drawn, answered: an accepted tree that the frame can show is handed over, its
      command is drawn, and the frame's answer makes the Worker report `rendered` for that
      very request, with the record of that verdict. */
  lemma AcceptedIsRendered(p: Policy, w: Worker, m: Asked, v: Verdict)
    returns (command: FC.Message<Tree>, ack: FC.Message<Tree>)
    requires PolicyWorker.Inv(p, w) && Open(w) && DeliveryFits(w, m) && m.preprocess && v.Accepted?
    requires F.Displayable(p, v.tree)
    ensures var (i, w1) := (|w.ports| - 1, Next(w, Request(m, v, FC.Posted)));
      && |w1.ports| == |w.ports|
      && Enabled(p, w1, PortEvent(i, FR.ToReceiver(command, FC.Success)))
      && var w2 := Next(w1, PortEvent(i, FR.ToReceiver(command, FC.Success)));
        && |w2.ports| == |w.ports|
        && Enabled(p, w2, PortEvent(i, FR.ToSender(ack)))
        && var w3 := Next(w2, PortEvent(i, FR.ToSender(ack)));
          && |w3.out| == |w.out| + 1 && w.out <= w3.out
          && var reply := w3.out[|w.out|];
            && RepliesTo(reply, m) && reply.kind == PS.ResultKind && reply.status == PS.RenderedStatus
            && reply.tree == None && reply.authority == v.authority && reply.acceptance == v.acceptance
  {
    var i: nat := |w.ports| - 1;
    hide PolicyWorker.Inv, Open, Next, SystemOf, F.Displayable, AnswersCall, ActsOn, Sane;
    command := Handed(p, w, m, v);
    var w1 := Next(w, Request(m, v, FC.Posted));
    ack := DrawnNext(p, w1, i, command);
    var w2 := Next(w1, PortEvent(i, FR.ToReceiver(command, FC.Success)));
    AnsweredMeaning(w2, i, ack);
  }

  lemma SameIds(y: FR.System<Tree>)
    requires FR.Inv(y)
    ensures y.s.ids == y.r.ids
  {
  }
}
