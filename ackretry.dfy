/** `sendPacket`, `sendBestEffort` and `sendWithAckReq`, the transmit path the
 *  end-device demos copy from one another. The copies differ only in where
 *  the running count of missed acknowledgements is written into the message
 *  and in whether a send clears the measurement semaphore, so one model is
 *  parametrised by a `Variant` and instantiated per demo. */
module AckRetry {
  import opened CTypes
  import opened Radio

  /** `MISSES_IN_A_ROW`: send attempts per retry round. */
  const MissesInARow: nat := 5
  /** `MSG_TYPE_SELFMEASURE` */
  const MsgTypeSelfMeasure: byte := 0

  /** What distinguishes the copies of the transmit path. */
  datatype Variant = Variant(
    stampPos: nat,                // index that receives `missedAcks` before each attempt
    stampOnlySelfMeasure: bool,   // the write is guarded by `msg[0] == MSG_TYPE_SELFMEASURE`
    semResetBestEffort: bool,     // `sendBestEffort` ends with `sSelfMeasureSem = 0`
    semResetAck: bool)            // `sendWithAckReq` ends with `sSelfMeasureSem = 0`

  /** ez430-rf2500_wsm_cables_broken: `msg[MISSED_ACK_POS]` (1), self-measure packets only. */
  const CablesBroken := Variant(1, true, false, false)
  /** ez430-rf2500_wsm: `msg[8]` always; both paths clear the semaphore. */
  const Wsm := Variant(8, false, true, true)
  /** eZ430-RF2500_WSM_accel_spectra: `msg[1]` always; only the acknowledged path clears it. */
  const AccelSpectra := Variant(1, false, false, true)

  /** Whether the missed-ack byte is written into this message. */
  predicate Stamps(v: Variant, msg: seq<byte>)
    requires v.stampPos < |msg|
  {
    !v.stampOnlySelfMeasure || msg[0] == MsgTypeSelfMeasure
  }

  /** The message after the write that precedes every acknowledged attempt. */
  function Stamp(v: Variant, msg: seq<byte>, missed: byte): (m: seq<byte>)
    requires 0 < v.stampPos < |msg|
    ensures |m| == |msg| && Stamps(v, m) == Stamps(v, msg)
  {
    if Stamps(v, msg) then msg[v.stampPos := missed] else msg
  }

  /** Before each acknowledged attempt only the missed-ack byte may change,
   *  and only in a message the variant stamps. */
  lemma StampOnlyMissedByte(v: Variant, msg: seq<byte>, missed: byte)
    requires 0 < v.stampPos < |msg|
    ensures var m := Stamp(v, msg, missed);
      && (forall i :: 0 <= i < |msg| && i != v.stampPos ==> m[i] == msg[i])
      && m[v.stampPos] == (if Stamps(v, msg) then missed else msg[v.stampPos])
  {
  }

  /** Stamping again overwrites the previous stamp. */
  lemma StampTwice(v: Variant, msg: seq<byte>, a: byte, b: byte)
    requires 0 < v.stampPos < |msg|
    ensures Stamp(v, Stamp(v, msg, a), b) == Stamp(v, msg, b)
  {
    var l, r := Stamp(v, Stamp(v, msg, a), b), Stamp(v, msg, b);
    assert |l| == |r|;
    forall i | 0 <= i < |l| ensures l[i] == r[i] { }
  }

  /** What one answer adds to `noAck` and to `missedAcks`: only `SMPL_NO_ACK` counts. */
  function Missed(r: Status): nat
  {
    if r == NoAck then 1 else 0
  }

  /** Reference count: how many of the first `n` answers from `ans(s)` on are `SMPL_NO_ACK`. */
  function CountNoAck(ans: nat -> Status, s: nat, n: nat): nat
  {
    NoAcksIn(ans, s, s + n)
  }

  /** How many of the answers `ans(lo) .. ans(hi - 1)` are `SMPL_NO_ACK`. */
  function NoAcksIn(ans: nat -> Status, lo: nat, hi: nat): nat
    requires lo <= hi
    decreases hi - lo
  {
    if hi == lo then 0 else NoAcksIn(ans, lo, hi - 1) + Missed(ans(hi - 1))
  }

  /** The count is full exactly when every answer is `SMPL_NO_ACK`. */
  lemma {:induction false} CountNoAckAll(ans: nat -> Status, s: nat, n: nat)
    ensures CountNoAck(ans, s, n) <= n
    ensures CountNoAck(ans, s, n) == n <==> forall i :: s <= i < s + n ==> ans(i) == NoAck
  {
    if n > 0 {
      CountNoAckAll(ans, s, n - 1);
    }
  }

  /** Reference predicate: none of the first `n` answers from `ans(s)` on is `SMPL_SUCCESS`. */
  predicate NoSuccess(ans: nat -> Status, s: nat, n: nat)
  {
    forall i :: s <= i < s + n ==> ans(i) != Success
  }

  /** `missedAcks` after the first `i` answers of a round entered with `missed`. */
  function MissedAfter(ans: nat -> Status, s: nat, missed: byte, i: nat): byte
  {
    (missed + CountNoAck(ans, s, i)) % 0x100
  }

  /** One more answer: `noAck` and `missedAcks` advance by what it adds. */
  lemma MissedAfterStep(ans: nat -> Status, s: nat, missed: byte, n: nat)
    ensures CountNoAck(ans, s, n + 1) == CountNoAck(ans, s, n) + Missed(ans(s + n))
    ensures MissedAfter(ans, s, missed, n + 1) == (MissedAfter(ans, s, missed, n) + Missed(ans(s + n))) % 0x100
  {
    ModAdd(missed + CountNoAck(ans, s, n), Missed(ans(s + n)));
  }

  /** The state of a round after `n` unacknowledged attempts. */
  predicate Progress(ans: nat -> Status, s: nat, m0: byte, n: nat, noAck: nat, missed: byte)
  {
    && NoSuccess(ans, s, n)
    && noAck == CountNoAck(ans, s, n)
    && missed == MissedAfter(ans, s, m0, n)
  }

  /** An unacknowledged attempt advances the state by what its answer adds. */
  lemma ProgressStep(ans: nat -> Status, s: nat, m0: byte, n: nat, noAck: nat, missed: byte)
    requires Progress(ans, s, m0, n, noAck, missed) && ans(s + n) != Success
    ensures Progress(ans, s, m0, n + 1, noAck + Missed(ans(s + n)), (missed + Missed(ans(s + n))) % 0x100)
  {
    MissedAfterStep(ans, s, m0, n);
  }

  /** What one pass of the `for (misses ...)` loop leaves behind: the last
   *  status, `noAck`, `missedAcks`, the number of `SMPL_SendOpt` calls and
   *  the value written into the message before the last of them. */
  datatype Round = Round(rc: Status, noAck: nat, missed: byte, attempts: nat, stamp: byte)

  /** The retry round of the answers from `ans(s)` on, from attempt `i - s`
   *  on, whose answer is `ans(i)`; `missed` is `missedAcks`, `noAck` the failures so far, `rc`
   *  the last status and `stamp` the last value written into the message. */
  function RoundFrom(ans: nat -> Status, s: nat, i: nat, missed: byte, noAck: nat, rc: Status, stamp: byte): Round
    requires s <= i <= s + MissesInARow
    decreases s + MissesInARow - i
  {
    if i == s + MissesInARow then Round(rc, noAck, missed, i - s, stamp)
    else
      var r := ans(i);
      if r == Success then Round(Success, noAck, 0, i - s + 1, missed)
      else RoundFrom(ans, s, i + 1, (missed + Missed(r)) % 0x100, noAck + Missed(r), r, missed)
  }

  /** One retry round, started with `noAck = 0`. */
  function OneRound(ans: nat -> Status, s: nat, missed: byte): Round
  {
    RoundFrom(ans, s, s, missed, 0, Success, missed)
  }

  /** The frame handed to `SMPL_SendOpt` at attempt `i` of a round: the
   *  message stamped with `missedAcks` as it stands after the answers before it. */
  function Frame(v: Variant, msg: seq<byte>, ans: nat -> Status, s: nat, missed: byte, i: nat): seq<byte>
    requires 0 < v.stampPos < |msg|
  {
    Stamp(v, msg, MissedAfter(ans, s, missed, i))
  }

  /** The frames of the first `n` attempts, in order. */
  function Frames(v: Variant, msg: seq<byte>, ans: nat -> Status, s: nat, missed: byte, n: nat): (fs: seq<seq<byte>>)
    requires 0 < v.stampPos < |msg|
    ensures |fs| == n
  {
    if n == 0 then [] else Frames(v, msg, ans, s, missed, n - 1) + [Frame(v, msg, ans, s, missed, n - 1)]
  }

  /** The round from attempt `k` on, entered with the counters a round
   *  without `SMPL_SUCCESS` has at attempt `k`, makes every remaining attempt
   *  and returns the status of the fifth. */
  lemma {:induction false} RoundFromNoSuccess(ans: nat -> Status, s: nat, k: nat, missed: byte, rc: Status, stamp: byte)
    requires k <= MissesInARow && NoSuccess(ans, s, MissesInARow)
    ensures RoundFrom(ans, s, s + k, MissedAfter(ans, s, missed, k), CountNoAck(ans, s, k), rc, stamp)
         == Round(if k < MissesInARow then ans(s + MissesInARow - 1) else rc,
                  CountNoAck(ans, s, MissesInARow), MissedAfter(ans, s, missed, MissesInARow), MissesInARow,
                  if k < MissesInARow then MissedAfter(ans, s, missed, MissesInARow - 1) else stamp)
    decreases MissesInARow - k
  {
    if k < MissesInARow {
      var r := ans(s + k);
      assert r != Success;
      ModAdd(missed + CountNoAck(ans, s, k), Missed(r));
      RoundFromNoSuccess(ans, s, k + 1, missed, r, MissedAfter(ans, s, missed, k));
    }
  }

  /** The round from attempt `k` on, entered with the counters it has at
   *  attempt `k`, ends at the first `SMPL_SUCCESS`, attempt `j`, with
   *  `missedAcks` reset to 0. */
  lemma {:induction false} RoundFromSuccess(ans: nat -> Status, s: nat, k: nat, missed: byte, rc: Status, stamp: byte, j: nat)
    requires k <= j < MissesInARow && ans(s + j) == Success && NoSuccess(ans, s, j)
    ensures RoundFrom(ans, s, s + k, MissedAfter(ans, s, missed, k), CountNoAck(ans, s, k), rc, stamp)
         == Round(Success, CountNoAck(ans, s, j), 0, j + 1, MissedAfter(ans, s, missed, j))
    decreases MissesInARow - k
  {
    if k < j {
      var r := ans(s + k);
      assert r != Success;
      ModAdd(missed + CountNoAck(ans, s, k), Missed(r));
      RoundFromSuccess(ans, s, k + 1, missed, r, MissedAfter(ans, s, missed, k), j);
    }
  }

  /** The first `SMPL_SUCCESS` among the answers `ans(s + lo) .. ans(s + j)`. */
  lemma FirstSuccess(ans: nat -> Status, s: nat, lo: nat, j: nat) returns (f: nat)
    requires lo <= j && ans(s + j) == Success && NoSuccess(ans, s, lo)
    ensures lo <= f <= j && ans(s + f) == Success && NoSuccess(ans, s, f)
    decreases j - lo
  {
    if ans(s + lo) == Success {
      f := lo;
    } else {
      f := FirstSuccess(ans, s, lo + 1, j);
    }
  }

  /** The first acknowledged attempt ends the round: attempt `j` is the last
   *  one, and `missedAcks` is reset to 0. */
  lemma RoundAcked(ans: nat -> Status, s: nat, missed: byte, j: nat)
    requires j < MissesInARow && ans(s + j) == Success && NoSuccess(ans, s, j)
    ensures OneRound(ans, s, missed) == Round(Success, CountNoAck(ans, s, j), 0, j + 1, MissedAfter(ans, s, missed, j))
  {
    assert MissedAfter(ans, s, missed, 0) == missed && CountNoAck(ans, s, 0) == 0;
    RoundFromSuccess(ans, s, 0, missed, Success, missed, j);
  }

  /** A round without an acknowledgement makes all five attempts, returns the
   *  status of the last one, and adds one to `noAck` and to `missedAcks`
   *  (mod 256) for each `SMPL_NO_ACK` and nothing for any other failure. */
  lemma RoundNotAcked(ans: nat -> Status, s: nat, missed: byte)
    requires NoSuccess(ans, s, MissesInARow)
    ensures OneRound(ans, s, missed)
         == Round(ans(s + MissesInARow - 1), CountNoAck(ans, s, MissesInARow),
                  MissedAfter(ans, s, missed, MissesInARow), MissesInARow, MissedAfter(ans, s, missed, MissesInARow - 1))
  {
    assert MissedAfter(ans, s, missed, 0) == missed && CountNoAck(ans, s, 0) == 0;
    RoundFromNoSuccess(ans, s, 0, missed, Success, missed);
  }

  /** Every round makes between one and five attempts and returns the status
   *  of its last one, having written into the message the `missedAcks` of
   *  that attempt; an acknowledged round resets `missedAcks`, and a round in
   *  which `noAck` reaches five made five attempts, none acknowledged. */
  lemma RoundShape(ans: nat -> Status, s: nat, missed: byte)
    ensures var R := OneRound(ans, s, missed);
      && 1 <= R.attempts <= MissesInARow
      && R.rc == ans(s + R.attempts - 1)
      && R.stamp == MissedAfter(ans, s, missed, R.attempts - 1)
      && (R.rc == Success ==> R.missed == 0)
      && (R.noAck == MissesInARow ==> R.attempts == MissesInARow && R.rc != Success)
  {
    if i :| s <= i < s + MissesInARow && ans(i) == Success {
      var f := FirstSuccess(ans, s, 0, i - s);
      RoundAcked(ans, s, missed, f);
      CountNoAckAll(ans, s, f);
    } else {
      RoundNotAcked(ans, s, missed);
    }
  }

  /** A round ends acknowledged exactly when one of its five answers is `SMPL_SUCCESS`. */
  lemma RoundAckedIff(ans: nat -> Status, s: nat, missed: byte)
    ensures OneRound(ans, s, missed).rc == Success <==> exists i :: s <= i < s + MissesInARow && ans(i) == Success
  {
    if i :| s <= i < s + MissesInARow && ans(i) == Success {
      var f := FirstSuccess(ans, s, 0, i - s);
      RoundAcked(ans, s, missed, f);
    } else {
      RoundNotAcked(ans, s, missed);
    }
  }

  /** `noAck` reaches `MISSES_IN_A_ROW` exactly when all five answers are `SMPL_NO_ACK`. */
  lemma RoundAllMissed(ans: nat -> Status, s: nat, missed: byte)
    ensures OneRound(ans, s, missed).noAck == MissesInARow
            <==> forall i :: s <= i < s + MissesInARow ==> ans(i) == NoAck
  {
    CountNoAckAll(ans, s, MissesInARow);
    if i :| s <= i < s + MissesInARow && ans(i) == Success {
      var f := FirstSuccess(ans, s, 0, i - s);
      RoundAcked(ans, s, missed, f);
      CountNoAckAll(ans, s, f);
      assert ans(s + f) != NoAck;
    } else {
      RoundNotAcked(ans, s, missed);
    }
  }

  /** One pass of the outer loop, from state (`s`, `p`, `missed`, `calls`)
   *  to (`s2`, `p2`, `missed2`, `calls2`): when it is the last, it produces
   *  what `Rounds` and `RoundsCalls` give; otherwise they give, from the new
   *  state, the same final outcome. */
  lemma RoundsStep(v: Variant, agility: bool, ans: nat -> Status, pans: nat -> Status, msg: seq<byte>, stop: nat,
                   s: nat, p: nat, missed: byte, calls: seq<Call>,
                   s2: nat, p2: nat, missed2: byte, calls2: seq<Call>, rc: Status, done: bool)
    requires 0 < v.stampPos < |msg|
    requires agility ==> p <= stop && pans(stop) != Success
    requires var R := OneRound(ans, s, missed);
      var pinged := Pings(agility, R);
      var sent := Sends(Frames(v, msg, ans, s, missed, R.attempts), TxAckReq);
      && rc == R.rc && missed2 == R.missed && s2 == s + R.attempts
      && p2 == (if pinged then p + 1 else p)
      && calls2 == (if pinged then calls + sent + [Pinged] else calls + sent)
      && done == !(pinged && pans(p) == Success)
    ensures var o := Rounds(agility, ans, pans, s, p, missed, stop);
      done ==>
      && rc == o.rc && missed2 == o.missed && o.stamp == OneRound(ans, s, missed).stamp
      && s2 == s + o.sends && p2 == p + o.pings
      && calls2 == calls + RoundsCalls(v, agility, ans, pans, s, p, missed, msg, stop)
    ensures var o := Rounds(agility, ans, pans, s, p, missed, stop);
      !done ==>
      && agility && p < p2 <= stop
      && var o2 := Rounds(agility, ans, pans, s2, p2, missed2, stop);
      && o2.rc == o.rc && o2.missed == o.missed && o2.stamp == o.stamp
      && s2 + o2.sends == s + o.sends && p2 + o2.pings == p + o.pings
      && calls2 + RoundsCalls(v, agility, ans, pans, s2, p2, missed2, msg, stop)
         == calls + RoundsCalls(v, agility, ans, pans, s, p, missed, msg, stop)
  {
    if done {
      RoundsStepLast(v, agility, ans, pans, msg, stop, s, p, missed, calls, calls2);
    } else {
      RoundsStepNext(v, agility, ans, pans, msg, stop, s, p, missed, calls, s2, p2, missed2, calls2);
    }
  }

  /** The pass that ends the loop. */
  lemma RoundsStepLast(v: Variant, agility: bool, ans: nat -> Status, pans: nat -> Status, msg: seq<byte>, stop: nat,
                       s: nat, p: nat, missed: byte, calls: seq<Call>, calls2: seq<Call>)
    requires 0 < v.stampPos < |msg|
    requires agility ==> p <= stop && pans(stop) != Success
    requires var R := OneRound(ans, s, missed);
      var pinged := Pings(agility, R);
      var sent := Sends(Frames(v, msg, ans, s, missed, R.attempts), TxAckReq);
      && calls2 == (if pinged then calls + sent + [Pinged] else calls + sent)
      && !(pinged && pans(p) == Success)
    ensures var R := OneRound(ans, s, missed);
      Rounds(agility, ans, pans, s, p, missed, stop)
      == Outcome(R.rc, R.missed, R.stamp, R.attempts, if Pings(agility, R) then 1 else 0)
    ensures calls2 == calls + RoundsCalls(v, agility, ans, pans, s, p, missed, msg, stop)
  {
    var R := OneRound(ans, s, missed);
    var sent := Sends(Frames(v, msg, ans, s, missed, R.attempts), TxAckReq);
    RoundsLast(v, agility, ans, pans, s, p, missed, msg, stop);
    if Pings(agility, R) {
      AppendAssoc(calls, sent, [Pinged]);
    }
  }

  /** A pass after which the loop goes on. */
  lemma RoundsStepNext(v: Variant, agility: bool, ans: nat -> Status, pans: nat -> Status, msg: seq<byte>, stop: nat,
                       s: nat, p: nat, missed: byte, calls: seq<Call>,
                       s2: nat, p2: nat, missed2: byte, calls2: seq<Call>)
    requires 0 < v.stampPos < |msg|
    requires agility ==> p <= stop && pans(stop) != Success
    requires var R := OneRound(ans, s, missed);
      && Pings(agility, R) && pans(p) == Success
      && missed2 == R.missed && s2 == s + R.attempts && p2 == p + 1
      && calls2 == calls + Sends(Frames(v, msg, ans, s, missed, R.attempts), TxAckReq) + [Pinged]
    ensures p2 <= stop
    ensures var o := Rounds(agility, ans, pans, s, p, missed, stop);
      var o2 := Rounds(agility, ans, pans, s2, p2, missed2, stop);
      && o2.rc == o.rc && o2.missed == o.missed && o2.stamp == o.stamp
      && s2 + o2.sends == s + o.sends && p2 + o2.pings == p + o.pings
    ensures calls2 + RoundsCalls(v, agility, ans, pans, s2, p2, missed2, msg, stop)
         == calls + RoundsCalls(v, agility, ans, pans, s, p, missed, msg, stop)
  {
    var R := OneRound(ans, s, missed);
    var sent := Sends(Frames(v, msg, ans, s, missed, R.attempts), TxAckReq);
    RoundsNext(v, agility, ans, pans, s, p, missed, msg, stop, s2, p2, missed2);
    var restCalls := RoundsCalls(v, agility, ans, pans, s2, p2, missed2, msg, stop);
    calc {
      calls2 + restCalls;
      (calls + (sent + [Pinged])) + restCalls;
      { AppendAssoc(calls, sent + [Pinged], restCalls); }
      calls + (sent + [Pinged] + restCalls);
    }
  }

  /** The state of the `for (misses ...)` loop after `n` attempts without
   *  `SMPL_SUCCESS`: the counters, the frames sent so far (after `calls0`),
   *  and the message, which holds the last frame sent and otherwise differs
   *  from `msg0` only in the stamp. */
  ghost predicate Attempted(v: Variant, msg0: seq<byte>, ans: nat -> Status, s: nat, m0: byte,
                            n: nat, noAck: nat, missed: byte, rc: Status, msg: seq<byte>, calls0: seq<Call>, calls: seq<Call>)
  {
    && 0 < v.stampPos < |msg0| == |msg|
    && n <= MissesInARow
    && Progress(ans, s, m0, n, noAck, missed)
    && calls == calls0 + Sends(Frames(v, msg0, ans, s, m0, n), TxAckReq)
    && Stamp(v, msg, missed) == Stamp(v, msg0, missed)
    && (n > 0 ==> rc == ans(s + n - 1) && msg == Frame(v, msg0, ans, s, m0, n - 1))
  }

  /** Before the first attempt. */
  lemma AttemptedInit(v: Variant, msg0: seq<byte>, ans: nat -> Status, s: nat, m0: byte, rc: Status, msg: seq<byte>, calls0: seq<Call>)
    requires 0 < v.stampPos < |msg0| == |msg|
    requires msg == msg0 || msg == Stamp(v, msg0, msg[v.stampPos])
    ensures Attempted(v, msg0, ans, s, m0, 0, 0, m0, rc, msg, calls0, calls0)
  {
    assert MissedAfter(ans, s, m0, 0) == m0 && CountNoAck(ans, s, 0) == 0;
    assert calls0 + Sends([], TxAckReq) == calls0;
    if msg != msg0 {
      StampTwice(v, msg0, msg[v.stampPos], m0);
    }
  }

  /** An attempt answered by anything but `SMPL_SUCCESS`: the frame it sent
   *  joins the list and the counters advance (`noAck2`, `missed2`). */
  lemma AttemptedStep(v: Variant, msg0: seq<byte>, ans: nat -> Status, s: nat, m0: byte,
                      n: nat, noAck: nat, missed: byte, rc: Status, msg: seq<byte>, calls0: seq<Call>, calls: seq<Call>,
                      n2: nat, noAck2: nat, missed2: byte, rc2: Status, msg2: seq<byte>, calls2: seq<Call>)
    requires Attempted(v, msg0, ans, s, m0, n, noAck, missed, rc, msg, calls0, calls)
    requires n < MissesInARow && n2 == n + 1
    requires rc2 == ans(s + n) && rc2 != Success
    requires msg2 == Frame(v, msg0, ans, s, m0, n) && calls2 == calls + [Sent(msg2, TxAckReq)]
    requires noAck2 == noAck + Missed(rc2) && missed2 == (missed + Missed(rc2)) % 0x100
    ensures Attempted(v, msg0, ans, s, m0, n2, noAck2, missed2, rc2, msg2, calls0, calls2)
  {
    var fs := Frames(v, msg0, ans, s, m0, n);
    SendsSnoc(fs, msg2, TxAckReq);
    assert Frames(v, msg0, ans, s, m0, n2) == fs + [msg2];
    AppendAssoc(calls0, Sends(fs, TxAckReq), [Sent(msg2, TxAckReq)]);
    ProgressStep(ans, s, m0, n, noAck, missed);
    StampTwice(v, msg0, MissedAfter(ans, s, m0, n), missed2);
  }

  /** The round ends at the first attempt answered `SMPL_SUCCESS`. */
  lemma AttemptedAcked(v: Variant, msg0: seq<byte>, ans: nat -> Status, s: nat, m0: byte,
                       n: nat, noAck: nat, missed: byte, rc: Status, msg: seq<byte>, calls0: seq<Call>, calls: seq<Call>,
                       msg2: seq<byte>, calls2: seq<Call>)
    requires Attempted(v, msg0, ans, s, m0, n, noAck, missed, rc, msg, calls0, calls)
    requires n < MissesInARow && ans(s + n) == Success
    requires msg2 == Frame(v, msg0, ans, s, m0, n) && calls2 == calls + [Sent(msg2, TxAckReq)]
    ensures var R := OneRound(ans, s, m0);
      && R == Round(Success, noAck, 0, n + 1, R.stamp)
      && msg2 == Stamp(v, msg0, R.stamp)
      && calls2 == calls0 + Sends(Frames(v, msg0, ans, s, m0, R.attempts), TxAckReq)
  {
    RoundAcked(ans, s, m0, n);
    var fs := Frames(v, msg0, ans, s, m0, n);
    SendsSnoc(fs, msg2, TxAckReq);
    assert Frames(v, msg0, ans, s, m0, n + 1) == fs + [msg2];
    AppendAssoc(calls0, Sends(fs, TxAckReq), [Sent(msg2, TxAckReq)]);
  }

  /** The round ends after five attempts none of which was acknowledged. */
  lemma AttemptedExhausted(v: Variant, msg0: seq<byte>, ans: nat -> Status, s: nat, m0: byte,
                           noAck: nat, missed: byte, rc: Status, msg: seq<byte>, calls0: seq<Call>, calls: seq<Call>)
    requires Attempted(v, msg0, ans, s, m0, MissesInARow, noAck, missed, rc, msg, calls0, calls)
    ensures var R := OneRound(ans, s, m0);
      && R == Round(rc, noAck, missed, MissesInARow, R.stamp)
      && msg == Stamp(v, msg0, R.stamp)
      && calls == calls0 + Sends(Frames(v, msg0, ans, s, m0, R.attempts), TxAckReq)
  {
    RoundNotAcked(ans, s, m0);
  }

  /** What `sendWithAckReq` leaves behind over all its rounds, apart from the
   *  calls it makes (`RoundsCalls`) and the message, which is the caller's
   *  message stamped with `stamp` (`StampTwice`). */
  datatype Outcome = Outcome(rc: Status, missed: byte, stamp: byte, sends: nat, pings: nat)

  /** Whether a round is followed by `SMPL_Ping`: it missed all five ACKs and
   *  `FREQUENCY_AGILITY` is defined. */
  predicate Pings(agility: bool, R: Round)
  {
    R.noAck == MissesInARow && agility
  }

  /** The `while (!done)` loop: with `FREQUENCY_AGILITY` a round of five
   *  `SMPL_NO_ACK`s is followed by `SMPL_Ping`, and a successful ping starts
   *  another round. `stop` is a ping that does not succeed; without one the
   *  C loop may never end. */
  function Rounds(agility: bool, ans: nat -> Status, pans: nat -> Status, s: nat, p: nat, missed: byte, stop: nat): Outcome
    requires agility ==> p <= stop && pans(stop) != Success
    decreases if agility then stop - p else 0
  {
    var R := OneRound(ans, s, missed);
    if Pings(agility, R) && pans(p) == Success then
      var rest := Rounds(agility, ans, pans, s + R.attempts, p + 1, R.missed, stop);
      rest.(sends := R.attempts + rest.sends, pings := 1 + rest.pings)
    else
      Outcome(R.rc, R.missed, R.stamp, R.attempts, if Pings(agility, R) then 1 else 0)
  }

  /** The calls into the stack the same loop makes: each round's frames sent
   *  with `SMPL_TXOPTION_ACKREQ`, followed by a ping when `Pings` holds. */
  function RoundsCalls(v: Variant, agility: bool, ans: nat -> Status, pans: nat -> Status,
                       s: nat, p: nat, missed: byte, msg: seq<byte>, stop: nat): (calls: seq<Call>)
    requires 0 < v.stampPos < |msg|
    requires agility ==> p <= stop && pans(stop) != Success
    ensures var o := Rounds(agility, ans, pans, s, p, missed, stop);
      |calls| == o.sends + o.pings
    decreases if agility then stop - p else 0
  {
    var R := OneRound(ans, s, missed);
    var sent := Sends(Frames(v, msg, ans, s, missed, R.attempts), TxAckReq);
    if Pings(agility, R) && pans(p) == Success then
      sent + [Pinged] + RoundsCalls(v, agility, ans, pans, s + R.attempts, p + 1, R.missed, msg, stop)
    else if Pings(agility, R) then sent + [Pinged]
    else sent
  }

  /** Without `FREQUENCY_AGILITY` the function returns after one round, with
   *  the status of its last attempt and no ping. */
  lemma SingleRound(ans: nat -> Status, pans: nat -> Status, s: nat, p: nat, missed: byte, stop: nat)
    ensures var o := Rounds(false, ans, pans, s, p, missed, stop);
      && 1 <= o.sends <= MissesInARow && o.pings == 0
      && o.rc == ans(s + o.sends - 1)
      && o.stamp == MissedAfter(ans, s, missed, o.sends - 1)
  {
    RoundShape(ans, s, missed);
  }

  /** Without `FREQUENCY_AGILITY` the calls are the frames of that one round. */
  lemma SingleRoundCalls(v: Variant, ans: nat -> Status, pans: nat -> Status, s: nat, p: nat, missed: byte, msg: seq<byte>, stop: nat)
    requires 0 < v.stampPos < |msg|
    ensures RoundsCalls(v, false, ans, pans, s, p, missed, msg, stop)
         == Sends(Frames(v, msg, ans, s, missed, Rounds(false, ans, pans, s, p, missed, stop).sends), TxAckReq)
  {
  }

  /** However many rounds run, an acknowledged send leaves `missedAcks` at 0,
   *  and the status returned is that of the last attempt. */
  lemma {:induction false} RoundsResult(agility: bool, ans: nat -> Status, pans: nat -> Status, s: nat, p: nat, missed: byte, stop: nat)
    requires agility ==> p <= stop && pans(stop) != Success
    ensures var o := Rounds(agility, ans, pans, s, p, missed, stop);
      && (o.rc == Success ==> o.missed == 0)
      && 1 <= o.sends
      && o.rc == ans(s + o.sends - 1)
    decreases if agility then stop - p else 0
  {
    var R := OneRound(ans, s, missed);
    RoundShape(ans, s, missed);
    var o := Rounds(agility, ans, pans, s, p, missed, stop);
    if Pings(agility, R) && pans(p) == Success {
      var rest := Rounds(agility, ans, pans, s + R.attempts, p + 1, R.missed, stop);
      RoundsResult(agility, ans, pans, s + R.attempts, p + 1, R.missed, stop);
      assert o == rest.(sends := R.attempts + rest.sends, pings := 1 + rest.pings);
      var last := s + R.attempts + rest.sends - 1;
      assert rest.rc == ans(last);
      assert s + o.sends - 1 == last;
    } else {
      assert o.rc == R.rc && o.missed == R.missed && o.sends == R.attempts;
    }
  }

  /** Pings are made only with `FREQUENCY_AGILITY`, and never past the first
   *  that fails. */
  lemma {:induction false} RoundsPings(agility: bool, ans: nat -> Status, pans: nat -> Status,
                                       s: nat, p: nat, missed: byte, stop: nat)
    requires agility ==> p <= stop && pans(stop) != Success
    ensures var o := Rounds(agility, ans, pans, s, p, missed, stop);
      && (agility ==> p + o.pings <= stop + 1)
      && (!agility ==> o.pings == 0)
    decreases if agility then stop - p else 0
  {
    var R := OneRound(ans, s, missed);
    if Pings(agility, R) && pans(p) == Success {
      RoundsPings(agility, ans, pans, s + R.attempts, p + 1, R.missed, stop);
    }
  }

  /** The loop ends after a round that is acknowledged, fails for another
   *  reason, or is followed by a ping that fails: its outcome and calls are
   *  that round's. */
  lemma RoundsLast(v: Variant, agility: bool, ans: nat -> Status, pans: nat -> Status,
                   s: nat, p: nat, missed: byte, msg: seq<byte>, stop: nat)
    requires 0 < v.stampPos < |msg|
    requires agility ==> p <= stop && pans(stop) != Success
    requires var R := OneRound(ans, s, missed); !(Pings(agility, R) && pans(p) == Success)
    ensures var R := OneRound(ans, s, missed);
      var sent := Sends(Frames(v, msg, ans, s, missed, R.attempts), TxAckReq);
      && Rounds(agility, ans, pans, s, p, missed, stop)
         == Outcome(R.rc, R.missed, R.stamp, R.attempts, if Pings(agility, R) then 1 else 0)
      && RoundsCalls(v, agility, ans, pans, s, p, missed, msg, stop)
         == if Pings(agility, R) then sent + [Pinged] else sent
  {
  }

  /** A round followed by a successful ping: the loop from state
   *  (`s`, `p`, `missed`) is that round followed by the loop from the state
   *  (`s2`, `p2`, `missed2`) the round leaves behind. */
  lemma RoundsNext(v: Variant, agility: bool, ans: nat -> Status, pans: nat -> Status,
                   s: nat, p: nat, missed: byte, msg: seq<byte>, stop: nat, s2: nat, p2: nat, missed2: byte)
    requires 0 < v.stampPos < |msg|
    requires agility ==> p <= stop && pans(stop) != Success
    requires var R := OneRound(ans, s, missed);
      Pings(agility, R) && pans(p) == Success && s2 == s + R.attempts && p2 == p + 1 && missed2 == R.missed
    ensures p2 <= stop
    ensures var R := OneRound(ans, s, missed);
      var rest := Rounds(agility, ans, pans, s2, p2, missed2, stop);
      Rounds(agility, ans, pans, s, p, missed, stop) == rest.(sends := R.attempts + rest.sends, pings := 1 + rest.pings)
    ensures RoundsCalls(v, agility, ans, pans, s, p, missed, msg, stop)
         == Sends(Frames(v, msg, ans, s, missed, OneRound(ans, s, missed).attempts), TxAckReq)
            + [Pinged] + RoundsCalls(v, agility, ans, pans, s2, p2, missed2, msg, stop)
  {
  }

  /** The per-file globals the transmit path touches, and the link it uses. */
  class Device {
    const variant: Variant
    /** `APP_AUTO_ACK` is defined */
    const autoAck: bool
    /** `FREQUENCY_AGILITY` is defined */
    const agility: bool
    const link: Link
    /** `missedAcks` (uint8_t) */
    var missedAcks: byte
    /** `sSelfMeasureSem` / `sMeasureSem` (uint8_t), raised by the timer interrupt */
    var sem: byte

    constructor (variant: Variant, autoAck: bool, agility: bool, link: Link)
      ensures this.variant == variant && this.autoAck == autoAck && this.agility == agility
      ensures this.link == link && missedAcks == 0 && sem == 0
    {
      this.variant, this.autoAck, this.agility, this.link := variant, autoAck, agility, link;
      missedAcks, sem := 0, 0;
    }

    /** `sendBestEffort`: one unacknowledged send between waking the radio
     *  and putting it back to sleep. */
    method SendBestEffort(msg: array<byte>) returns (rc: Status)
      modifies this, link
      ensures rc == link.sendAnswer(old(link.sends))
      ensures link.sends == old(link.sends) + 1 && link.pings == old(link.pings)
      ensures link.calls == old(link.calls) + [RadioAwake, Sent(msg[..], TxNone), RadioSleep]
      ensures missedAcks == old(missedAcks)
      ensures sem == if variant.semResetBestEffort then 0 else old(sem)
    {
      link.Ioctl(true);
      rc := link.SendOpt(msg[..], TxNone);
      link.Ioctl(false);
      if variant.semResetBestEffort {
        sem := 0;
      }
    }

    /** The write before each acknowledged attempt: `missedAcks` into the
     *  message, where the variant stamps it. */
    method StampMissed(msg: array<byte>)
      requires 0 < variant.stampPos < msg.Length
      modifies msg
      ensures msg[..] == Stamp(variant, old(msg[..]), missedAcks)
    {
      if !variant.stampOnlySelfMeasure || msg[0] == MsgTypeSelfMeasure {
        msg[variant.stampPos] := missedAcks;
      }
    }

    /** One attempt of the `for (misses ...)` loop: stamp the message, then
     *  send it asking for an acknowledgement. Entered after `n` attempts of
     *  the round that started at send `s` with `missedAcks` at `m0`. */
    method Attempt(msg: array<byte>, ghost msg0: seq<byte>, ghost s: nat, ghost m0: byte, ghost n: nat) returns (rc: Status)
      requires 0 < variant.stampPos < msg.Length == |msg0|
      requires link.sends == s + n && missedAcks == MissedAfter(link.sendAnswer, s, m0, n)
      requires Stamp(variant, msg[..], missedAcks) == Stamp(variant, msg0, missedAcks)
      modifies link, msg
      ensures rc == link.sendAnswer(s + n) && link.sends == s + n + 1 && link.pings == old(link.pings)
      ensures msg[..] == Frame(variant, msg0, link.sendAnswer, s, m0, n)
      ensures link.calls == old(link.calls) + [Sent(Frame(variant, msg0, link.sendAnswer, s, m0, n), TxAckReq)]
    {
      StampMissed(msg);
      rc := link.SendOpt(msg[..], TxAckReq);
    }

    /** The `for (misses ...)` loop of `sendWithAckReq`: up to
     *  `MISSES_IN_A_ROW` acknowledged sends, each preceded by writing
     *  `missedAcks` into the message, stopping at the first `SMPL_SUCCESS`.
     *  `msg0` is the caller's message, which earlier rounds may have stamped. */
    method TryRound(msg: array<byte>, ghost msg0: seq<byte>) returns (rc: Status, noAck: nat)
      requires 0 < variant.stampPos < msg.Length == |msg0|
      requires msg[..] == msg0 || msg[..] == Stamp(variant, msg0, msg[variant.stampPos])
      modifies this`missedAcks, link, msg
      ensures var R := OneRound(link.sendAnswer, old(link.sends), old(missedAcks));
        && rc == R.rc && noAck == R.noAck && missedAcks == R.missed
        && link.sends == old(link.sends) + R.attempts && link.pings == old(link.pings)
        && link.calls == old(link.calls) + Sends(Frames(variant, msg0, link.sendAnswer, old(link.sends), old(missedAcks), R.attempts), TxAckReq)
        && msg[..] == Stamp(variant, msg0, R.stamp)
    {
      ghost var v, ans, s, m0, calls0 := variant, link.sendAnswer, link.sends, missedAcks, link.calls;
      noAck := 0;
      rc := Success;
      var misses := 0;
      AttemptedInit(v, msg0, ans, s, m0, rc, msg[..], calls0);
      while misses < MissesInARow
        invariant msg.Length == |msg0|
        invariant link.sendAnswer == ans && link.sends == s + misses && link.pings == old(link.pings)
        invariant Attempted(v, msg0, ans, s, m0, misses, noAck, missedAcks, rc, msg[..], calls0, link.calls)
      {
        ghost var n, k, m, r, before, c := misses, noAck, missedAcks, rc, msg[..], link.calls;
        rc := Attempt(msg, msg0, s, m0, misses);
        if rc == Success {
          AttemptedAcked(v, msg0, ans, s, m0, n, k, m, r, before, calls0, c, msg[..], link.calls);
          missedAcks := 0;
          break;
        }
        if rc == NoAck {
          noAck := noAck + 1;
          missedAcks := (missedAcks + 1) % 0x100;
        }
        misses := misses + 1;
        AttemptedStep(v, msg0, ans, s, m0, n, k, m, r, before, calls0, c, misses, noAck, missedAcks, rc, msg[..], link.calls);
      }
      if misses == MissesInARow {
        AttemptedExhausted(v, msg0, ans, s, m0, noAck, missedAcks, rc, msg[..], calls0, link.calls);
      }
    }

    /** One pass of the `while (!done)` loop of `sendWithAckReq`: a round of
     *  attempts and, when all of them went unacknowledged and frequency
     *  agility is on, a ping; `done` is the loop's exit condition. When the
     *  loop ends here, the result is what `Rounds` gives from the state before
     *  the pass; when it goes on, `Rounds` from the new state leads to the
     *  same end. */
    method RoundThenPing(msg: array<byte>, ghost msg0: seq<byte>, ghost stop: nat) returns (rc: Status, done: bool)
      requires 0 < variant.stampPos < msg.Length == |msg0|
      requires msg[..] == msg0 || msg[..] == Stamp(variant, msg0, msg[variant.stampPos])
      requires agility ==> link.pings <= stop && link.pingAnswer(stop) != Success
      modifies this`missedAcks, link, msg
      ensures msg[..] == msg0 || msg[..] == Stamp(variant, msg0, msg[variant.stampPos])
      ensures var o := Rounds(agility, link.sendAnswer, link.pingAnswer, old(link.sends), old(link.pings), old(missedAcks), stop);
        done ==>
        && rc == o.rc && missedAcks == o.missed && msg[..] == Stamp(variant, msg0, o.stamp)
        && link.sends == old(link.sends) + o.sends && link.pings == old(link.pings) + o.pings
        && link.calls == old(link.calls)
           + RoundsCalls(variant, agility, link.sendAnswer, link.pingAnswer, old(link.sends), old(link.pings), old(missedAcks), msg0, stop)
      ensures var o := Rounds(agility, link.sendAnswer, link.pingAnswer, old(link.sends), old(link.pings), old(missedAcks), stop);
        !done ==>
        && agility && old(link.pings) < link.pings <= stop
        && var o2 := Rounds(agility, link.sendAnswer, link.pingAnswer, link.sends, link.pings, missedAcks, stop);
        && o2.rc == o.rc && o2.missed == o.missed && o2.stamp == o.stamp
        && link.sends + o2.sends == old(link.sends) + o.sends && link.pings + o2.pings == old(link.pings) + o.pings
        && link.calls + RoundsCalls(variant, agility, link.sendAnswer, link.pingAnswer, link.sends, link.pings, missedAcks, msg0, stop)
           == old(link.calls)
           + RoundsCalls(variant, agility, link.sendAnswer, link.pingAnswer, old(link.sends), old(link.pings), old(missedAcks), msg0, stop)
    {
      ghost var v, ans, pans := variant, link.sendAnswer, link.pingAnswer;
      ghost var s, p, m0, c := link.sends, link.pings, missedAcks, link.calls;
      var noAck;
      rc, noAck := TryRound(msg, msg0);
      done := true;
      if noAck == MissesInARow && agility {
        var pr := link.Ping();
        done := pr != Success;
      }
      RoundsStep(v, agility, ans, pans, msg0, stop, s, p, m0, c, link.sends, link.pings, missedAcks, link.calls, rc, done);
    }

    /** The `while (!done)` loop of `sendWithAckReq`: rounds of attempts, with
     *  a ping between them under frequency agility, as described by `Rounds`
     *  and `RoundsCalls`. */
    method RetryRounds(msg: array<byte>, ghost stop: nat) returns (rc: Status)
      requires 0 < variant.stampPos < msg.Length
      requires agility ==> link.pings <= stop && link.pingAnswer(stop) != Success
      modifies this`missedAcks, link, msg
      ensures var o := Rounds(agility, link.sendAnswer, link.pingAnswer, old(link.sends), old(link.pings), old(missedAcks), stop);
        && rc == o.rc && missedAcks == o.missed && msg[..] == Stamp(variant, old(msg[..]), o.stamp)
        && link.sends == old(link.sends) + o.sends && link.pings == old(link.pings) + o.pings
        && link.calls == old(link.calls)
           + RoundsCalls(variant, agility, link.sendAnswer, link.pingAnswer, old(link.sends), old(link.pings), old(missedAcks), old(msg[..]), stop)
    {
      ghost var v, ans, pans := variant, link.sendAnswer, link.pingAnswer;
      ghost var msg0 := msg[..];
      ghost var final := Rounds(agility, ans, pans, link.sends, link.pings, missedAcks, stop);
      ghost var finalCalls := RoundsCalls(v, agility, ans, pans, link.sends, link.pings, missedAcks, msg0, stop);
      ghost var calls0, sends0, pings0 := link.calls, link.sends, link.pings;
      while true
        invariant link.sendAnswer == ans && link.pingAnswer == pans && msg.Length == |msg0|
        invariant msg[..] == msg0 || msg[..] == Stamp(v, msg0, msg[v.stampPos])
        invariant agility ==> link.pings <= stop
        invariant var cur := Rounds(agility, ans, pans, link.sends, link.pings, missedAcks, stop);
          && cur.rc == final.rc && cur.missed == final.missed && cur.stamp == final.stamp
          && link.sends + cur.sends == sends0 + final.sends && link.pings + cur.pings == pings0 + final.pings
          && link.calls + RoundsCalls(v, agility, ans, pans, link.sends, link.pings, missedAcks, msg0, stop) == calls0 + finalCalls
        decreases if agility then stop - link.pings else 0
      {
        var done;
        rc, done := RoundThenPing(msg, msg0, stop);
        if done {
          break;
        }
      }
    }

    /** `sendWithAckReq`: wake the radio, run the retry rounds, put the radio
     *  back to sleep and, in the variants that do so, clear the self-measure
     *  semaphore. */
    method SendWithAckReq(msg: array<byte>, ghost stop: nat) returns (rc: Status)
      requires 0 < variant.stampPos < msg.Length
      requires agility ==> link.pings <= stop && link.pingAnswer(stop) != Success
      modifies this, link, msg
      ensures var o := Rounds(agility, link.sendAnswer, link.pingAnswer, old(link.sends), old(link.pings), old(missedAcks), stop);
        && rc == o.rc && missedAcks == o.missed && msg[..] == Stamp(variant, old(msg[..]), o.stamp)
        && link.sends == old(link.sends) + o.sends && link.pings == old(link.pings) + o.pings
      ensures link.calls == old(link.calls) + [RadioAwake]
        + RoundsCalls(variant, agility, link.sendAnswer, link.pingAnswer, old(link.sends), old(link.pings), old(missedAcks), old(msg[..]), stop)
        + [RadioSleep]
      ensures sem == if variant.semResetAck then 0 else old(sem)
    {
      link.Ioctl(true);
      rc := RetryRounds(msg, stop);
      link.Ioctl(false);
      if variant.semResetAck {
        sem := 0;
      }
    }

    /** `sendPacket`: the acknowledged path only when `APP_AUTO_ACK` is
     *  defined and the caller asks for it, the best-effort path otherwise. */
    method SendPacket(msg: array<byte>, ackflag: bool, ghost stop: nat) returns (rc: Status)
      requires autoAck && ackflag ==> 0 < variant.stampPos < msg.Length
      requires autoAck && ackflag && agility ==> link.pings <= stop && link.pingAnswer(stop) != Success
      modifies this, link, msg
      ensures !(autoAck && ackflag) ==>
        && rc == link.sendAnswer(old(link.sends)) && msg[..] == old(msg[..])
        && link.sends == old(link.sends) + 1 && link.pings == old(link.pings)
        && link.calls == old(link.calls) + [RadioAwake, Sent(old(msg[..]), TxNone), RadioSleep]
        && missedAcks == old(missedAcks) && sem == (if variant.semResetBestEffort then 0 else old(sem))
      ensures autoAck && ackflag ==>
        var o := Rounds(agility, link.sendAnswer, link.pingAnswer, old(link.sends), old(link.pings), old(missedAcks), stop);
        && rc == o.rc && missedAcks == o.missed && msg[..] == Stamp(variant, old(msg[..]), o.stamp)
        && link.calls == old(link.calls) + [RadioAwake]
           + RoundsCalls(variant, agility, link.sendAnswer, link.pingAnswer, old(link.sends), old(link.pings), old(missedAcks), old(msg[..]), stop)
           + [RadioSleep]
        && sem == (if variant.semResetAck then 0 else old(sem))
    {
      if autoAck && ackflag {
        rc := SendWithAckReq(msg, stop);
      } else {
        rc := SendBestEffort(msg);
      }
    }
  }
}
