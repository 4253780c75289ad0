/** The loop of pipeSIP over a connection, with the relays of its session
    (internal/app/server/proxy.go:248-318). */
module SipPipe {
  import opened Text
  import opened SipMessage
  import opened SipStream
  import opened SipRewrite
  import opened SipBridge
  import opened SipRelease
  import E = SipExternal
  import R = RtpSession

  /** What a turn has to do with the relays: a message on its way out is rewritten with those that the
      session maps then; one on its way in releases those of the call it ends, and no others. */
  ghost predicate WithRelays(d: Direction, step: Step, m: map<string, R.RTPRelay>, m': map<string, R.RTPRelay>) {
    if step.Ended? || step.Dropped? then m' == m
    else if d.fromInternal then
      if !Rewrites(d, step.data) then m' == m
      else exists ch, callID :: E.RewritesWith(d, step.data, step.out, ch, callID, m')
    else exists byeID :: Released(d, step.data, byeID, m, m')
  }

  ghost predicate Released(d: Direction, data: string, byeID: string, m: map<string, R.RTPRelay>,
                           m': map<string, R.RTPRelay>) {
    m' == E.AfterBye(d, data, byeID, m)
    && (IsBye(d.rewriteSDP, data) ==> HeaderChoice(Parse(data).hdrs, "Call-ID", byeID))
  }

  lemma RewrittenWith(d: Direction, data: string, out: string, ch: Choices, callID: string,
                      m: map<string, R.RTPRelay>, m': map<string, R.RTPRelay>)
    requires d.fromInternal
    requires if Rewrites(d, data) then E.RewritesWith(d, data, out, ch, callID, m') else m' == m
    ensures WithRelays(d, Forwarded(data, out), m, m') && WithRelays(d, WriteFailed(data, out), m, m')
  {
    hide Rewrites, E.RewritesWith;
  }

  lemma ReleasedBy(d: Direction, data: string, byeID: string, m: map<string, R.RTPRelay>, m': map<string, R.RTPRelay>)
    requires !d.fromInternal && Released(d, data, byeID, m, m')
    ensures WithRelays(d, Forwarded(data, data), m, m') && WithRelays(d, WriteFailed(data, data), m, m')
  {
    hide Released;
  }

  /** One turn of the loop of pipeSIP: read a chunk, drop it when blank, else rewrite it or, on its way
      in, release the relays of a call it ends, and write it. */
  method PipeOne(d: Direction, src: BufReader, dst: Writer, session: R.ClientSession, opens: int -> bool)
    returns (step: Step)
    requires src.Valid() && dst.Valid() && session.Valid()
    modifies src, dst`written
    modifies session`rtpRelays, session`requests, session.pool, R.Values(session.rtpRelays)`stopped
    ensures src.Valid() && dst.Valid() && session.Valid()
    ensures forall r :: r in R.Values(session.rtpRelays) && r !in R.Values(old(session.rtpRelays)) ==> fresh(r)
    ensures StepOf(d, dst.breaksAt, step, old(src.Rest()), src.Rest(), old(dst.written), dst.written)
    ensures WithRelays(d, step, old(session.rtpRelays), session.rtpRelays)
  {
    hide Scan, ReadMessage, Sent, Rewrites, TrimSpace, E.Allocated, E.RelaysGiven, E.RewritesWith;
    hide R.OfCall, R.PortsOf, R.StoppedKeys, R.Without, Parse, IsBye;
    var msg, error := ReadMessageFromStream(src);
    if msg == None {
      return Ended;
    }
    if TrimSpace(msg.value) == "" {
      return Dropped;
    }
    ghost var before := session.rtpRelays;
    var out := msg.value;
    if d.fromInternal {
      ghost var byeID, callID, ch;
      out, byeID, callID, ch := E.RewriteSIPForExternal(d, msg.value, session, opens);
      RewrittenWith(d, msg.value, out, ch, callID, before, session.rtpRelays);
    } else {
      PassedOn(d, msg.value);
      var byeID := ReleaseRelayOnBye(d.rewriteSDP, msg.value, session);
      E.FewerValues(before, session.rtpRelays);
      ReleasedBy(d, msg.value, byeID, before, session.rtpRelays);
    }
    var ok := dst.Write(out);
    return if ok then Forwarded(msg.value, out) else WriteFailed(msg.value, out);
  }

  /** pipeSIP, until the source ends or fails or a write fails; cut is the output of a failed write. A
      destination that takes everything gets an output for every kept chunk. */
  method PipeSIP(d: Direction, src: BufReader, dst: Writer, session: R.ClientSession, opens: int -> bool)
    returns (ghost outs: seq<string>, ghost cut: string, complete: bool)
    requires src.Valid() && dst.Valid() && session.Valid()
    modifies src, dst`written
    modifies session`rtpRelays, session`requests, session.pool, R.Values(session.rtpRelays)`stopped
    ensures src.Valid() && dst.Valid() && session.Valid()
    ensures PipeResult(d, dst.breaksAt, Keep(Chunks(old(src.Rest()))), outs, cut, complete,
                       old(dst.written), dst.written)
    ensures dst.breaksAt == None ==> complete && AllSent(d, Keep(Chunks(old(src.Rest()))), outs)
    ensures dst.breaksAt == None ==> dst.written == old(dst.written) + Concat(outs)
  {
    ghost var kept := Keep(Chunks(src.Rest()));
    ghost var done: seq<string> := [];
    outs, cut := [], "";
    NothingPiped(d, dst.breaksAt, kept, src.Rest(), dst.written);
    while true
      invariant src.Valid() && dst.Valid() && session.Valid()
      invariant forall r :: r in R.Values(session.rtpRelays) && r !in R.Values(old(session.rtpRelays)) ==> fresh(r)
      invariant Sofar(d, dst.breaksAt, kept, done, outs, src.Rest(), old(dst.written), dst.written)
      decreases |src.Rest()|
    {
      hide Sofar, StepOf, PipeResult, Keep, Chunks, R.Values, R.ClientSession.Valid, AllSent, Concat;
      ghost var rest, w := src.Rest(), dst.written;
      var step := PipeOne(d, src, dst, session, opens);
      PipeStep(d, dst.breaksAt, step, kept, done, outs, rest, src.Rest(), old(dst.written), w, dst.written);
      if step.Ended? {
        HealthyRun(d, dst.breaksAt, kept, outs, "", true, old(dst.written), dst.written);
        return outs, "", true;
      }
      if step.WriteFailed? {
        HealthyRun(d, dst.breaksAt, kept, outs, step.out, false, old(dst.written), dst.written);
        return outs, step.out, false;
      }
      if step.Forwarded? {
        outs, done := outs + [step.out], done + [step.data];
      }
    }
  }

  lemma NothingPiped(d: Direction, limit: Option<nat>, kept: seq<string>, rest: string, w: string)
    requires kept == Keep(Chunks(rest)) && (limit.Some? ==> |w| <= limit.value)
    ensures Sofar(d, limit, kept, [], [], rest, w, w)
  {
    hide Keep, Chunks;
  }
}
