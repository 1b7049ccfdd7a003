/** What one call or message does at either end of the private port, told by the fields of
    the message. */
module FrameAnswers {
  import opened FrameChannel
  import opened Options
  import opened Utf8

  /** Both identities are strings of 1 to 128 code units, and this port's own. */
  predicate Ours<T>(m: Message<T>, ids: Ids) {
    && m.Message? && m.protocol == 1
    && 1 <= |m.instanceId| <= 128 && 1 <= |m.sessionId| <= 128
    && m.instanceId == ids.instanceId && m.sessionId == ids.sessionId
  }

  predicate Numbered<T>(m: Message<T>) {
    m.Message? && m.generation >= 0 && m.requestId >= 0 && m.seqNo >= 0
  }

  lemma BoundedMeaning(reason: Option<Str>)
    ensures BoundedReason(reason).Some? <==> reason.Some?
    ensures reason.Some? ==>
      && BoundedReason(reason).value <= reason.value
      && |BoundedReason(reason).value| == if |reason.value| < 300 then |reason.value| else 300
  {
  }

  // ----- the sender -----

  /** A call on an open port takes the next number and is pending under it once its message
      is posted; a call whose posting throws is settled at once. */
  lemma RenderMeaning<T>(s: Sender<T>, c: Call<T>, post: Post)
    ensures var s' := AfterRender(s, c, post);
      && (s.closed ==> s' == s)
      && (!s.closed ==>
            && s'.seqNo == s.seqNo + 1 && s'.sent == s.sent + 1 && s'.calls == s.calls + [c] && !s'.closed
            && (s'.rendered, s'.refused, s'.ignored) == (s.rendered, s.refused, s.ignored))
      && (!s.closed && post.Posted? ==>
            && s'.pending == s.pending[s'.seqNo := Entry(c.generation, c.requestId)] && s'.settled == s.settled
            && s'.posted == s.posted + [Message(1, Render, s.ids.instanceId, s.ids.sessionId,
                                                c.generation, c.requestId, s'.seqNo, c.tree, None)])
      && (!s.closed && post.Throws? ==>
            && s'.pending == s.pending - {s'.seqNo} && s'.posted == s.posted
            && s'.settled == s.settled[s'.seqNo := PostFailed(BoundedReason(post.message))])
  {
  }

  /** The message answers a pending call: right identities, natural numbers, an answering
      kind, and the very generation and request id of the call under its number. */
  ghost predicate AnswersCall<T>(s: Sender<T>, m: Message<T>) {
    && Ours(m, s.ids) && Numbered(m) && (m.kind == Rendered || m.kind == Refused)
    && m.seqNo in s.pending && s.pending[m.seqNo] == Entry(m.generation, m.requestId)
  }

  /** An acknowledgement settles the call it answers, as rendered or as refused with the
      frame's reason; any other message is counted as ignored. */
  lemma AckMeaning<T>(s: Sender<T>, m: Message<T>)
    ensures var s' := AfterAck(s, m);
      && (s.closed ==> s' == s)
      && (!s.closed && !AnswersCall(s, m) ==> s' == s.(ignored := s.ignored + 1))
      && (!s.closed && AnswersCall(s, m) && m.kind == Rendered ==>
            s' == s.(pending := s.pending - {m.seqNo}, settled := s.settled[m.seqNo := Ok],
                     rendered := s.rendered + 1))
      && (!s.closed && AnswersCall(s, m) && m.kind == Refused ==>
            s' == s.(pending := s.pending - {m.seqNo}, refused := s.refused + 1,
                     settled := s.settled[m.seqNo := FrameRefused(BoundedReason(m.reason))]))
  {
    hide BoundedReason;
  }

  /** A timer settles only its own call, and only if it is pending. */
  lemma TimeoutMeaning<T>(s: Sender<T>, n: nat)
    ensures var s' := Settle(s, n, AckTimeout);
      && (n !in s.pending ==> s' == s)
      && (n in s.pending ==> s' == s.(pending := s.pending - {n}, settled := s.settled[n := AckTimeout]))
  {
  }

  lemma DisposeMeaning<T>(s: Sender<T>)
    ensures var s' := AfterSenderDispose(s);
      && s'.closed && (s.closed ==> s' == s)
      && (!s.closed ==>
            && s'.pending == map[] && s'.settled.Keys == s.settled.Keys + s.pending.Keys
            && (forall n :: n in s.pending ==> s'.settled[n] == PortClosed)
            && (forall n :: n in s.settled && n !in s.pending ==> s'.settled[n] == s.settled[n])
            && s' == s.(closed := true, pending := s'.pending, settled := s'.settled))
  {
  }

  // ----- the receiver -----

  /** A command this end acts on: its own identities, natural numbers, a tree, and a number
      above all it has acted on. */
  predicate ActsOn<T>(r: Receiver<T>, m: Message<T>) {
    Ours(m, r.ids) && Numbered(m) && m.kind == Render && m.tree.Some? && m.seqNo > r.lastSeq
  }

  /** Such a command is drawn and answered, once, under its own numbers: as rendered exactly
      when the callback succeeded. Any other message is counted as ignored. */
  lemma CommandMeaning<T>(r: Receiver<T>, m: Message<T>, drawn: Drawn)
    ensures var r' := AfterCommand(r, m, drawn);
      && (r.closed ==> r' == r)
      && (!r.closed && !ActsOn(r, m) ==> r' == r.(ignored := r.ignored + 1))
      && (!r.closed && ActsOn(r, m) ==>
            && r'.lastSeq == m.seqNo && r'.ignored == r.ignored && !r'.closed
            && r'.rendered == r.rendered + (if drawn.Success? then 1 else 0)
            && r'.refused == r.refused + (if drawn.Success? then 0 else 1)
            && r'.log == r.log + [Rendering(m.tree.value, m.generation, m.requestId, m.seqNo, drawn.Success?)]
            && |r'.posted| == |r.posted| + 1 && r.posted <= r'.posted
            && var ack := r'.posted[|r.posted|];
              && Ours(r'.posted[|r.posted|], r.ids) && Numbered(ack)
              && (ack.generation, ack.requestId, ack.seqNo) == (m.generation, m.requestId, m.seqNo)
              && ack.kind == if drawn.Success? then Rendered else Refused)
  {
    hide RefusalReason;
  }

  predicate Spells(units: Str, text: string) {
    |units| == |text| && forall i :: 0 <= i < |text| ==> units[i] == text[i] as int
  }

  /** The reason sent with a refusal: the callback's own, or what it threw, cut to 300 code
      units; a fixed text when there is none. */
  lemma ReasonMeaning(drawn: Drawn, given: Str)
    ensures drawn.Failure? && drawn.reason.None? ==> Spells(RefusalReason(drawn), "refused")
    ensures drawn.Threw? && drawn.message.None? ==> Spells(RefusalReason(drawn), "render failed")
    ensures drawn == Failure(Some(given)) || drawn == Threw(Some(given)) ==>
      RefusalReason(drawn) == if |given| <= 300 then given else given[..300]
  {
  }

  // ----- both ends -----

  /** There and back: a command posted by one end and drawn with success by the other, which
      had seen nothing newer, comes back as the answer that settles its call as rendered. */
  lemma ThereAndBack<T>(s: Sender<T>, r: Receiver<T>, c: Call<T>)
    requires s.ids == r.ids && IdsOk(s.ids) && !s.closed && !r.closed && r.lastSeq <= s.seqNo
    requires c.tree.Some? && c.generation >= 0 && c.requestId >= 0
    ensures var sent := AfterRender(s, c, Posted);
      var drawn := AfterCommand(r, sent.posted[|s.posted|], Success);
      && |sent.posted| == |s.posted| + 1 && |drawn.posted| == |r.posted| + 1
      && var back := AfterAck(sent, drawn.posted[|r.posted|]);
        back.settled == s.settled[s.seqNo + 1 := Ok] && s.seqNo + 1 !in back.pending
  {
    RenderMeaning(s, c, Posted);
    var sent := AfterRender(s, c, Posted);
    var m := sent.posted[|s.posted|];
    CommandMeaning(r, m, Success);
    var ack := AfterCommand(r, m, Success).posted[|r.posted|];
    AckMeaning(sent, ack);
    hide AfterRender, AfterCommand, AfterAck;
  }
}
