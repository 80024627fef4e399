/**
 * Why the durability results ask that transfer requests address transfer records: the server decodes whatever object
 * an id names, so a plain object whose bytes happen to be a record is taken for one.
 */
module TransferAliasing {
  import opened Basics
  import opened Transfer
  import opened TransferInvariant

  /** An upload of bytes that decode as an open record of `t`, and an abort addressed to that upload. */
  function AliasRun(s: Void, t: Id, u: Id, reason: string, now: U64): seq<(Request, U64)>
    requires HasRecord(s, t)
  {
    [(Upload(u, Encode(InProgress(RecordOf(s, t).begin, [], 0))), now), (TransferAbort(u, reason), now)]
  }

  /**
   * From any state with a committed transfer and any unused id, that two-step run leaves the transfer aborted: its
   * second request addresses a plain object and touches the transfer's record.
   */
  lemma AliasUndoesCommit(s: Void, t: Id, u: Id, reason: string, now: U64)
    requires LosslessCodec() && Inv(s) && HasRecord(s, t) && RecordOf(s, t).Committed? && u !in s.index
    requires |Encode(InProgress(RecordOf(s, t).begin, [], 0))| <= MAX_OBJECT
    ensures var s' := Run(s, AliasRun(s, t, u, reason, now));
      HasRecord(s', t) && RecordOf(s', t).Aborted? && !ProperRun(s, AliasRun(s, t, u, reason, now))
  {
    hide Inv;
    var alias := InProgress(RecordOf(s, t).begin, [], 0);
    var run := AliasRun(s, t, u, reason, now);
    assert RecordOf(s, t).begin.transferId == t by { OwnRecord(s, t); }
    assert Decode(Encode(alias)) == Some(alias);
    var uploaded := Put(s, u, PlainKey(u), Encode(alias));
    assert Handle(s, run[0].0, now).0 == uploaded;
    assert LoadRecord(uploaded, u) == Ok(alias);
    var aborted := AbortTransfer(uploaded, alias.begin, [], reason, now).0;
    assert Handle(uploaded, run[1].0, now).0 == aborted;
    assert Decode(Encode(Aborted(alias.begin, reason, now))) == Some(Aborted(alias.begin, reason, now));
    var rest := run[1..];
    assert |rest| == 1 && rest[0] == run[1] && |rest[1..]| == 0;
    assert Run(s, run) == Run(uploaded, rest) == Run(aborted, rest[1..]) == aborted;
    assert ProperRun(s, run) ==> ProperRun(uploaded, rest);
  }

  lemma OwnRecord(s: Void, t: Id)
    requires Inv(s) && HasRecord(s, t)
    ensures RecordOf(s, t).begin.transferId == t
  {
    assert RecordOk(s, t);
  }
}
