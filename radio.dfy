/** The part of the SimpliciTI network API the end devices call. The stack
 *  itself is closed, so each call is an entry in a log, and the status that
 *  the n-th `SMPL_SendOpt` and the n-th `SMPL_Ping` return are oracles fixed
 *  when the link is made. */
module Radio {
  import opened CTypes

  /** `smplStatus_t`: the two values the demos test for and every other one. */
  datatype Status = Success | NoAck | OtherFailure(code: int)

  /** `SMPL_TXOPTION_NONE` / `SMPL_TXOPTION_ACKREQ` */
  datatype TxOption = TxNone | TxAckReq

  /** One call into the stack, in the order the application makes them. */
  datatype Call =
    | RadioAwake                                   // SMPL_Ioctl(..., IOCTL_ACT_RADIO_AWAKE, 0)
    | RadioSleep                                   // SMPL_Ioctl(..., IOCTL_ACT_RADIO_SLEEP, 0)
    | Sent(frame: seq<byte>, option: TxOption)     // SMPL_SendOpt(sLinkID1, msg, len, option)
    | Pinged                                       // SMPL_Ping(sLinkID1)

  /** The calls `SMPL_SendOpt(frame, option)` for each frame in turn. */
  function Sends(frames: seq<seq<byte>>, option: TxOption): (calls: seq<Call>)
    ensures |calls| == |frames|
    ensures forall i :: 0 <= i < |frames| ==> calls[i] == Sent(frames[i], option)
  {
    if frames == [] then [] else [Sent(frames[0], option)] + Sends(frames[1..], option)
  }

  /** Sending one more frame appends one call. */
  lemma SendsSnoc(a: seq<seq<byte>>, f: seq<byte>, option: TxOption)
    ensures Sends(a + [f], option) == Sends(a, option) + [Sent(f, option)]
  {
    SendsAppend(a, [f], option);
    assert Sends([f], option) == [Sent(f, option)];
  }

  /** The calls `sendBestEffort` makes for each frame in turn: wake the
   *  radio, one send without acknowledgement request, put it back to sleep. */
  function BestEffortCalls(frames: seq<seq<byte>>): (calls: seq<Call>)
    ensures |calls| == 3 * |frames|
  {
    if frames == [] then []
    else BestEffortCalls(frames[..|frames| - 1]) + [RadioAwake, Sent(frames[|frames| - 1], TxNone), RadioSleep]
  }

  /** The calls for the k-th frame sit at positions 3k, 3k+1 and 3k+2. */
  lemma {:induction false} BestEffortCallsAt(frames: seq<seq<byte>>, k: nat)
    requires k < |frames|
    ensures var calls := BestEffortCalls(frames);
      calls[3 * k] == RadioAwake && calls[3 * k + 1] == Sent(frames[k], TxNone) && calls[3 * k + 2] == RadioSleep
  {
    if k < |frames| - 1 {
      BestEffortCallsAt(frames[..|frames| - 1], k);
    }
  }

  /** One more best-effort frame appends its three calls. */
  lemma BestEffortSnoc(frames: seq<seq<byte>>, f: seq<byte>)
    ensures BestEffortCalls(frames + [f]) == BestEffortCalls(frames) + [RadioAwake, Sent(f, TxNone), RadioSleep]
  {
    assert (frames + [f])[..|frames|] == frames;
  }

  /** Sending two batches of frames is sending their concatenation. */
  lemma SendsAppend(a: seq<seq<byte>>, b: seq<seq<byte>>, option: TxOption)
    ensures Sends(a + b, option) == Sends(a, option) + Sends(b, option)
  {
    var l, r := Sends(a + b, option), Sends(a, option) + Sends(b, option);
    assert |l| == |r|;
    forall i | 0 <= i < |l| ensures l[i] == r[i] {
      if i < |a| { assert (a + b)[i] == a[i]; } else { assert (a + b)[i] == b[i - |a|]; }
    }
  }

  /** The link `sLinkID1` to the access point. */
  class Link {
    /** Status returned by the n-th `SMPL_SendOpt` (counting from 0). */
    const sendAnswer: nat -> Status
    /** Status returned by the n-th `SMPL_Ping` (counting from 0). */
    const pingAnswer: nat -> Status
    var sends: nat
    var pings: nat
    var calls: seq<Call>

    constructor (sendAnswer: nat -> Status, pingAnswer: nat -> Status)
      ensures this.sendAnswer == sendAnswer && this.pingAnswer == pingAnswer
      ensures sends == 0 && pings == 0 && calls == []
    {
      this.sendAnswer := sendAnswer;
      this.pingAnswer := pingAnswer;
      sends, pings, calls := 0, 0, [];
    }

    /** `SMPL_Ioctl(IOCTL_OBJ_RADIO, awake ? RADIO_AWAKE : RADIO_SLEEP, 0)` */
    method Ioctl(awake: bool)
      modifies this`calls
      ensures calls == old(calls) + [if awake then RadioAwake else RadioSleep]
    {
      calls := calls + [if awake then RadioAwake else RadioSleep];
    }

    /** `SMPL_SendOpt(sLinkID1, msg, len, option)` */
    method SendOpt(frame: seq<byte>, option: TxOption) returns (rc: Status)
      modifies this`sends, this`calls
      ensures rc == sendAnswer(old(sends))
      ensures sends == old(sends) + 1
      ensures calls == old(calls) + [Sent(frame, option)]
    {
      rc := sendAnswer(sends);
      sends := sends + 1;
      calls := calls + [Sent(frame, option)];
    }

    /** `SMPL_Ping(sLinkID1)` */
    method Ping() returns (rc: Status)
      modifies this`pings, this`calls
      ensures rc == pingAnswer(old(pings))
      ensures pings == old(pings) + 1
      ensures calls == old(calls) + [Pinged]
    {
      rc := pingAnswer(pings);
      pings := pings + 1;
      calls := calls + [Pinged];
    }
  }
}
