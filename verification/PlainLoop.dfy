/** The loop of MergePartialFromCodedStream without its shortcuts: read one tag, dispatch on it. */
module PlainLoop {
  import opened Wrappers
  import opened WireFormat
  import opened Schema
  import opened Messages

  datatype Outcome = Done(m: Msg, stop: Stop, rest: bytes) | Failed

  function AfterTag(t: MessageType, m: Msg, num: nat, wireType: nat, bs: bytes): Outcome
    decreases |bs|, 1
  {
    if wireType == END_GROUP then Done(m, EndGroup(num), bs)
    else
      match ReadPayload(num, wireType, bs, SubMessageNumbers(t))
      case NoField => Failed
      case Field(r, after) =>
        match Absorb(t, m, r)
        case None => Failed
        case Some(m') => Loop(t, m', after)
  }

  function Loop(t: MessageType, m: Msg, bs: bytes): Outcome
    decreases |bs|, 0
  {
    match ReadTag(bs)
    case AtLimit => Done(m, AtEnd, [])
    case NoTag(rest) => Done(m, ZeroTag, rest)
    case Tag(num, wireType, rest) => AfterTag(t, m, num, wireType, rest)
  }

  lemma LoopStep(t: MessageType, m: Msg, bs: bytes)
    ensures var tag := ReadTag(bs);
            Loop(t, m, bs) ==
              if tag.AtLimit? then Done(m, AtEnd, [])
              else if tag.NoTag? then Done(m, ZeroTag, tag.rest)
              else AfterTag(t, m, tag.num, tag.wireType, tag.rest)
    ensures var tag := ReadTag(bs);
            tag.Tag? && tag.wireType == END_GROUP ==> Loop(t, m, bs) == Done(m, EndGroup(tag.num), tag.rest)
  {
  }

  lemma AfterTagStep(t: MessageType, m: Msg, num: nat, wireType: nat, bs: bytes)
    requires wireType != END_GROUP
    ensures var p := ReadPayload(num, wireType, bs, SubMessageNumbers(t));
            var res := if p.Field? then Absorb(t, m, p.r) else None;
            AfterTag(t, m, num, wireType, bs) == if res.Some? then Loop(t, res.value, p.rest) else Failed
  {
  }

  /** The loop is a scan for records followed by absorbing them in order. */
  lemma {:induction false} LoopIsScan(t: MessageType, m: Msg, bs: bytes)
    ensures var s := ScanRecords(bs, SubMessageNumbers(t));
            var a := AbsorbAll(t, m, s.recs);
            Loop(t, m, bs) == if s.stop.Broken? || a.None? then Failed else Done(a.value, s.stop, s.rest)
    decreases |bs|
  {
    hide Absorb, ReadPayload, SubMessageNumbers;
    var tag := ReadTag(bs);
    var lax := SubMessageNumbers(t);
    if tag.Tag? && tag.wireType != END_GROUP {
      var p := ReadPayload(tag.num, tag.wireType, tag.rest, lax);
      if p.Field? {
        ScanStep(bs, lax, tag.num, tag.wireType, tag.rest, p.r, p.rest);
        var d := Absorb(t, m, p.r);
        var s := ScanRecords(p.rest, lax);
        assert ([p.r] + s.recs)[1..] == s.recs;
        if d.Some? {
          LoopIsScan(t, d.value, p.rest);
        }
      }
    }
  }

  /** A sub-message window is parsed when the loop on it stops at its end. */
  lemma WindowIsLoop(t: MessageType, m: Msg, bs: bytes)
    ensures var o := Loop(t, m, bs);
            && ParseWindow(t, m, bs) == (if o.Done? && o.stop.AtEnd? then Some(o.m) else None)
            && (o.Done? && o.stop.AtEnd? ==> o.rest == [])
  {
    LoopIsScan(t, m, bs);
  }
}
