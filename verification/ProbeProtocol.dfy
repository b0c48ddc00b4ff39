/**
 The exchange usb.c starts at probe time: one command block wrapper, an optional data
 stage, one command status wrapper, each stage submitted by the previous stage's callback.
 The specification over values comes first; class `ProbeDevice` is the driver in place.
 `log` lists submissions and completions in order.
 */
module ProbeProtocol {
  import opened Kernel
  import opened BulkOnlyWire
  import opened ScsiMacros

  datatype Urb = CbwUrb | WriteUrb | ReadUrb | InquiryUrb | CswUrb

  datatype Pipe = In | Out

  datatype Stage = Stage(urb: Urb, pipe: Pipe, length: nat)

  datatype LogEntry = Submitted(urb: Urb) | Completed(urb: Urb, ok: bool)

  datatype Probe = Probe(cbw: seq<Byte>, csw: seq<Byte>, cbwTag: nat, inflight: Option<Urb>,
                         freed: set<Urb>, log: seq<LogEntry>, success: bool)

  predicate Sized(p: Probe) {
    |p.cbw| == CBW_LEN && |p.csw| == CSW_LEN
  }

  /** The data stage cbw_callback picks for an opcode, with the length it hard-codes. */
  function DataStage(opcode: Byte): Option<Stage> {
    match opcode
    case 0x2A => Some(Stage(WriteUrb, Out, 15))
    case 0x28 => Some(Stage(ReadUrb, In, 512))
    case 0x12 => Some(Stage(InquiryUrb, In, 36))
    case 0x03 => Some(Stage(InquiryUrb, In, 18))
    case 0x25 => Some(Stage(ReadUrb, In, 8))
    case _ => None
  }

  function Submit(p: Probe, urb: Urb, accepted: bool): Probe {
    if accepted then p.(inflight := Some(urb), log := p.log + [Submitted(urb)]) else p
  }

  /** init_usb_protocols, for any command bytes. */
  function Start(wire: seq<Byte>, csw: seq<Byte>, accepted: bool): Probe
    requires |wire| == CBW_LEN && |csw| == CSW_LEN
  {
    Submit(Probe(wire, csw, 0, None, {}, [], false), CbwUrb, accepted)
  }

  function CbwCallback(p: Probe, ok: bool, accepted: bool): Probe
    requires Sized(p)
  {
    if !ok then p else
    var cbw := DecodeCbw(p.cbw);
    if cbw.signature != CBW_SIG then p else
    var p1 := p.(cbwTag := cbw.tag);
    if cbw.cb[0] == 0x00 then Submit(p1, CswUrb, accepted) else
    match DataStage(cbw.cb[0])
    case None => p1
    case Some(stage) => if accepted then Submit(p1, stage.urb, true) else p1.(freed := p1.freed + {stage.urb})
  }

  function DataCallback(p: Probe, ok: bool, accepted: bool): Probe {
    if ok then Submit(p, CswUrb, accepted) else p
  }

  /** The code compares the status wrapper's signature with CBW_SIG, not CSW_SIG. */
  function CswCallback(p: Probe, ok: bool): Probe
    requires Sized(p)
  {
    if !ok then p else
    var csw := DecodeCsw(p.csw);
    if csw.signature != CBW_SIG then p else
    if csw.tag != p.cbwTag then p else
    p.(success := true)
  }

  /** How the URB in flight ends: its status, whether the next submission is accepted, and
      the bytes a status stage brings. */
  datatype Outcome = Outcome(ok: bool, accepted: bool, received: seq<Byte>)

  function Complete(p: Probe, o: Outcome): (r: Probe)
    requires Sized(p)
    ensures Sized(r) && r.cbw == p.cbw
  {
    if p.inflight.None? || |o.received| != CSW_LEN then p else
    var urb := p.inflight.value;
    var p1 := p.(inflight := None, log := p.log + [Completed(urb, o.ok)]);
    match urb
    case CbwUrb => CbwCallback(p1, o.ok, o.accepted)
    case CswUrb => CswCallback(p1.(csw := o.received), o.ok)
    case _ => DataCallback(p1, o.ok, o.accepted)
  }

  function RunAll(p: Probe, outcomes: seq<Outcome>): (r: Probe)
    requires Sized(p)
    ensures Sized(r) && r.cbw == p.cbw
  {
    if outcomes == [] then p
    else Complete(RunAll(p, outcomes[..|outcomes| - 1]), outcomes[|outcomes| - 1])
  }

  // ----- The endpoint scan of usb_probe

  datatype Endpoint = Endpoint(address: Byte, bulk: bool)

  predicate IsBulkIn(e: Endpoint) { e.bulk && e.address >= 0x80 }

  predicate IsBulkOut(e: Endpoint) { e.bulk && e.address < 0x80 }

  /** `address` is the one of the last endpoint of the kind, or 0 when there is none. */
  ghost predicate LastOf(eps: seq<Endpoint>, kind: Endpoint -> bool, address: Byte) {
    || (address == 0 && forall i | 0 <= i < |eps| :: !kind(eps[i]))
    || (exists i :: 0 <= i < |eps| && kind(eps[i]) && address == eps[i].address && forall j | i < j < |eps| :: !kind(eps[j]))
  }

  /** The scan keeps the last endpoint of either direction.  Probing goes on as soon as one of
      the two addresses is not 0: the guard is a conjunction, so it can go on with one only. */
  method ScanEndpoints(eps: seq<Endpoint>) returns (bulkIn: Byte, bulkOut: Byte, ok: bool)
    ensures LastOf(eps, IsBulkIn, bulkIn) && LastOf(eps, IsBulkOut, bulkOut)
    ensures bulkIn != 0 <==> exists i :: 0 <= i < |eps| && IsBulkIn(eps[i])
    ensures ok <==> (exists i :: 0 <= i < |eps| && IsBulkIn(eps[i])) || bulkOut != 0
  {
    bulkIn, bulkOut := 0, 0;
    for i := 0 to |eps|
      invariant LastOf(eps[..i], IsBulkIn, bulkIn) && LastOf(eps[..i], IsBulkOut, bulkOut)
    {
      var e := eps[i];
      assert eps[..i + 1] == eps[..i] + [e];
      if IsBulkIn(e) {
        bulkIn := e.address;
        assert eps[..i + 1][i] == e;
      }
      if IsBulkOut(e) {
        bulkOut := e.address;
        assert eps[..i + 1][i] == e;
      }
      KeepLast(eps[..i], e, IsBulkIn);
      KeepLast(eps[..i], e, IsBulkOut);
    }
    assert eps[..|eps|] == eps;
    if bulkIn == 0 && bulkOut == 0 {
      return bulkIn, bulkOut, false;
    }
    ok := true;
  }

  lemma KeepLast(eps: seq<Endpoint>, e: Endpoint, kind: Endpoint -> bool)
    ensures forall a: Byte | LastOf(eps, kind, a) && !kind(e) :: LastOf(eps + [e], kind, a)
  {
    forall a: Byte | LastOf(eps, kind, a) && !kind(e)
      ensures LastOf(eps + [e], kind, a)
    {
      if i :| 0 <= i < |eps| && kind(eps[i]) && a == eps[i].address && forall j | i < j < |eps| :: !kind(eps[j]) {
        assert (eps + [e])[i] == eps[i];
      }
    }
  }

  // ----- The driver itself

  class ProbeDevice {
    const myCbw: CommandBlockWrapper
    const cbwBuffer: array<Byte>
    const cswBuffer: array<Byte>
    var cbwTag: nat
    var inflight: Option<Urb>
    var freed: set<Urb>
    var log: seq<LogEntry>
    var success: bool

    ghost predicate Valid()
      reads this, myCbw
    {
      && cbwBuffer.Length == CBW_LEN && cswBuffer.Length == CSW_LEN && cbwBuffer != cswBuffer
      && myCbw.Valid() && myCbw.CBWCB != cbwBuffer && myCbw.CBWCB != cswBuffer
    }

    ghost function Snapshot(): Probe
      reads this, cbwBuffer, cswBuffer
    {
      Probe(cbwBuffer[..], cswBuffer[..], cbwTag, inflight, freed, log, success)
    }

    constructor ()
      ensures Valid() && fresh(cbwBuffer) && fresh(cswBuffer) && fresh(myCbw) && fresh(myCbw.CBWCB)
      ensures cbwTag == 0 && inflight.None? && freed == {} && log == [] && !success
    {
      cbwTag, inflight, freed, log, success := 0, None, {}, [], false;
      cbwBuffer := new Byte[CBW_LEN](_ => 0);
      cswBuffer := new Byte[CSW_LEN](_ => 0);
      myCbw := new CommandBlockWrapper();
    }

    method SubmitUrb(urb: Urb, accepted: bool)
      modifies this`inflight, this`log
      ensures inflight == (if accepted then Some(urb) else old(inflight))
      ensures log == (if accepted then old(log) + [Submitted(urb)] else old(log))
    {
      if accepted {
        inflight := Some(urb);
        log := log + [Submitted(urb)];
      }
    }

    method InitUsbProtocols(accepted: bool)
      requires Valid() && cbwTag == 0 && inflight.None? && freed == {} && log == [] && !success
      modifies this, cbwBuffer, myCbw, myCbw.CBWCB
      ensures Valid() && Snapshot() == Start(EncodeCbw(Build(Inquiry(36))), old(cswBuffer[..]), accepted)
    {
      myCbw.ScsiInquiry(36);
      var value := Cbw(myCbw.dCBWSignature, myCbw.dCBWTag, myCbw.dCBWDataTransferLength, myCbw.bmCBWFlags,
                       myCbw.bCBWLUN, myCbw.bCBWCBLength, myCbw.CBWCB[..]);
      Memcpy(cbwBuffer, EncodeCbw(value));
      SubmitUrb(CbwUrb, accepted);
    }

    method CbwCallbackHandler(ok: bool, accepted: bool)
      requires Valid()
      modifies this
      ensures Valid() && Snapshot() == CbwCallback(old(Snapshot()), ok, accepted)
    {
      if !ok {
        return;
      }
      var cbw := DecodeCbw(cbwBuffer[..]);
      if cbw.signature != CBW_SIG {
        return;
      }
      cbwTag := cbw.tag;
      match cbw.cb[0] {
        case 0x2A =>
          SubmitData(WriteUrb, accepted);
        case 0x28 =>
          SubmitData(ReadUrb, accepted);
        case 0x00 =>
          SubmitUrb(CswUrb, accepted);
        case 0x12 =>
          SubmitData(InquiryUrb, accepted);
        case 0x03 =>
          SubmitData(InquiryUrb, accepted);
        case 0x25 =>
          SubmitData(ReadUrb, accepted);
        case _ =>
      }
    }

    /** A data URB that cannot be submitted is killed and freed. */
    method SubmitData(urb: Urb, accepted: bool)
      requires Valid()
      modifies this`inflight, this`log, this`freed
      ensures Valid()
      ensures inflight == (if accepted then Some(urb) else old(inflight))
      ensures log == (if accepted then old(log) + [Submitted(urb)] else old(log))
      ensures freed == (if accepted then old(freed) else old(freed) + {urb})
    {
      SubmitUrb(urb, accepted);
      if !accepted {
        freed := freed + {urb};
      }
    }

    method DataCallbackHandler(ok: bool, accepted: bool)
      requires Valid()
      modifies this
      ensures Valid() && Snapshot() == DataCallback(old(Snapshot()), ok, accepted)
    {
      if ok {
        SubmitUrb(CswUrb, accepted);
      }
    }

    method CswCallbackHandler(ok: bool)
      requires Valid()
      modifies this
      ensures Valid() && Snapshot() == CswCallback(old(Snapshot()), ok)
    {
      if !ok {
        return;
      }
      var csw := DecodeCsw(cswBuffer[..]);
      if csw.signature != CBW_SIG {
        return;
      }
      if csw.tag != cbwTag {
        return;
      }
      success := true;
    }

    method CompleteUrb(o: Outcome)
      requires Valid() && inflight.Some? && |o.received| == CSW_LEN
      modifies this, cswBuffer
      ensures Valid() && Snapshot() == Complete(old(Snapshot()), o)
    {
      var urb := inflight.value;
      inflight := None;
      log := log + [Completed(urb, o.ok)];
      match urb {
        case CbwUrb =>
          CbwCallbackHandler(o.ok, o.accepted);
        case CswUrb =>
          Memcpy(cswBuffer, o.received);
          CswCallbackHandler(o.ok);
        case _ =>
          DataCallbackHandler(o.ok, o.accepted);
      }
    }
  }

  // ----- Every run

  function Opcode(wire: seq<Byte>): Byte
    requires |wire| == CBW_LEN
  {
    DecodeCbw(wire).cb[0]
  }

  /** The URBs an exchange needs, in order; an unknown opcode stops after the wrapper. */
  function Script(opcode: Byte): (s: seq<Urb>)
    ensures 1 <= |s| <= 3 && s[0] == CbwUrb
    ensures forall i | 0 <= i < |s| :: s[i] == CswUrb ==> i == |s| - 1
  {
    if opcode == 0x00 then [CbwUrb, CswUrb]
    else match DataStage(opcode)
         case None => [CbwUrb]
         case Some(stage) => [CbwUrb, stage.urb, CswUrb]
  }

  /** The first `k` URBs of the script, each submitted and completed without error. */
  function Passed(script: seq<Urb>, k: nat): (l: seq<LogEntry>)
    requires k <= |script|
    ensures |l| == 2 * k
  {
    if k == 0 then [] else Passed(script, k - 1) + [Submitted(script[k - 1]), Completed(script[k - 1], true)]
  }

  /** URB `k` of the script is in flight and all before it have succeeded. */
  ghost predicate Flying(p: Probe, k: nat)
    requires Sized(p) && k < |Script(Opcode(p.cbw))|
  {
    var script := Script(Opcode(p.cbw));
    && p.inflight == Some(script[k]) && p.log == Passed(script, k) + [Submitted(script[k])]
    && !p.success && p.freed == {} && (k > 0 ==> p.cbwTag == DecodeCbw(p.cbw).tag)
  }

  /** The exchange is over, URB `k` of the script being the last one that completed. */
  ghost predicate Landed(p: Probe, k: nat, ok: bool)
    requires Sized(p) && k < |Script(Opcode(p.cbw))|
  {
    var script := Script(Opcode(p.cbw));
    && p.inflight.None? && p.log == Passed(script, k) + [Submitted(script[k]), Completed(script[k], ok)]
    && (p.success ==>
          && k == |script| - 1 && script[k] == CswUrb && ok
          && DecodeCsw(p.csw).tag == DecodeCbw(p.cbw).tag && DecodeCsw(p.csw).signature == CBW_SIG)
  }

  ghost predicate Inv(p: Probe) {
    && Sized(p)
    && (|| (p.inflight.None? && p.log == [] && !p.success)
        || (exists k: nat :: k < |Script(Opcode(p.cbw))| && Flying(p, k))
        || (exists k: nat, ok :: k < |Script(Opcode(p.cbw))| && Landed(p, k, ok)))
  }

  lemma CompleteFlying(p: Probe, o: Outcome, k: nat)
    requires Sized(p) && k < |Script(Opcode(p.cbw))| && Flying(p, k) && |o.received| == CSW_LEN
    ensures var q := Complete(p, o);
            if k + 1 < |Script(Opcode(p.cbw))| && o.ok && o.accepted && DecodeCbw(p.cbw).signature == CBW_SIG
            then Flying(q, k + 1)
            else Landed(q, k, o.ok) || (k + 1 < |Script(Opcode(p.cbw))| && Flying(q, k + 1))
  {
    var script := Script(Opcode(p.cbw));
    assert Passed(script, k) + [Submitted(script[k])] + [Completed(script[k], o.ok)]
        == Passed(script, k) + [Submitted(script[k]), Completed(script[k], o.ok)];
    if k + 1 < |script| && o.ok {
      assert Passed(script, k + 1) == Passed(script, k) + [Submitted(script[k]), Completed(script[k], true)];
    }
  }

  lemma CompleteKeepsInv(p: Probe, o: Outcome)
    requires Inv(p)
    ensures Inv(Complete(p, o))
  {
    if p.inflight.Some? && |o.received| == CSW_LEN {
      var k: nat :| k < |Script(Opcode(p.cbw))| && Flying(p, k);
      CompleteFlying(p, o, k);
    }
  }

  lemma {:induction false} RunAllInv(p: Probe, outcomes: seq<Outcome>)
    requires Inv(p)
    ensures Inv(RunAll(p, outcomes))
  {
    if outcomes != [] {
      RunAllInv(p, outcomes[..|outcomes| - 1]);
      CompleteKeepsInv(RunAll(p, outcomes[..|outcomes| - 1]), outcomes[|outcomes| - 1]);
    }
  }

  lemma Reached(wire: seq<Byte>, csw: seq<Byte>, accepted: bool, outcomes: seq<Outcome>)
    requires |wire| == CBW_LEN && |csw| == CSW_LEN
    ensures var p := RunAll(Start(wire, csw, accepted), outcomes);
            Inv(p) && p.cbw == wire
  {
    var p := Start(wire, csw, accepted);
    if accepted {
      assert Passed(Script(Opcode(wire)), 0) == [];
      assert Flying(p, 0);
    }
    RunAllInv(p, outcomes);
  }

  lemma {:induction false} PassedAt(script: seq<Urb>, k: nat, i: nat)
    requires i < k <= |script|
    ensures Passed(script, k)[2 * i] == Submitted(script[i]) && Passed(script, k)[2 * i + 1] == Completed(script[i], true)
    ensures Passed(script, k)[..2 * i] == Passed(script, i)
  {
    if i < k - 1 {
      PassedAt(script, k - 1, i);
      assert Passed(script, k)[..2 * i] == Passed(script, k - 1)[..2 * i];
    } else {
      assert Passed(script, k)[..2 * i] == Passed(script, i);
    }
  }

  /** Entry `i` submits the URB whose turn it is, and all before it have succeeded. */
  ghost predicate InTurn(script: seq<Urb>, log: seq<LogEntry>, i: nat)
    requires i < |log| && log[i].Submitted?
  {
    && i % 2 == 0 && i / 2 < |script| && log[i].urb == script[i / 2]
    && log[..i] == Passed(script, i / 2)
    && (log[i].urb == CswUrb ==> i / 2 == |script| - 1)
  }

  lemma InvInTurn(p: Probe, i: nat)
    requires Inv(p) && i < |p.log| && p.log[i].Submitted?
    ensures InTurn(Script(Opcode(p.cbw)), p.log, i)
  {
    var script := Script(Opcode(p.cbw));
    if k: nat :| k < |script| && Flying(p, k) {
      LogOrder(script, k, [Submitted(script[k])], i);
    } else if k: nat, ok :| k < |script| && Landed(p, k, ok) {
      LogOrder(script, k, [Submitted(script[k]), Completed(script[k], ok)], i);
    }
  }

  /** Over any command bytes and any outcomes: whatever is submitted follows the script, and
      everything submitted before it has completed without error.  So a status stage comes
      only after the wrapper and, where the opcode has one, the data stage succeeded. */
  lemma StagesInOrder(wire: seq<Byte>, csw: seq<Byte>, accepted: bool, outcomes: seq<Outcome>, i: nat)
    requires |wire| == CBW_LEN && |csw| == CSW_LEN
    requires var p := RunAll(Start(wire, csw, accepted), outcomes); i < |p.log| && p.log[i].Submitted?
    ensures InTurn(Script(Opcode(wire)), RunAll(Start(wire, csw, accepted), outcomes).log, i)
  {
    Reached(wire, csw, accepted, outcomes);
    InvInTurn(RunAll(Start(wire, csw, accepted), outcomes), i);
  }

  function Submissions(log: seq<LogEntry>): nat {
    if log == [] then 0
    else Submissions(log[..|log| - 1]) + if log[|log| - 1].Submitted? then 1 else 0
  }

  /** Submissions and completions alternate, each completion being that of the URB submitted
      just before. */
  ghost predicate Alternates(log: seq<LogEntry>) {
    && (forall i | 0 <= i < |log| :: log[i].Submitted? <==> i % 2 == 0)
    && (forall i | 0 <= i < |log| && i % 2 == 1 :: log[i].urb == log[i - 1].urb)
  }

  ghost predicate LogMatchesFlight(p: Probe) {
    && Alternates(p.log) && Submissions(p.log) <= 3
    && (p.inflight.Some? <==> |p.log| % 2 == 1)
    && (p.inflight.Some? ==> p.log[|p.log| - 1] == Submitted(p.inflight.value))
  }

  lemma {:induction false} HalfSubmitted(log: seq<LogEntry>)
    requires Alternates(log)
    ensures Submissions(log) == (|log| + 1) / 2
  {
    if log != [] {
      HalfSubmitted(log[..|log| - 1]);
    }
  }

  lemma {:induction false} OneMoreStage(log: seq<LogEntry>, urb: Urb, ok: bool)
    requires Alternates(log) && |log| % 2 == 0 && |log| <= 4
    ensures var l := log + [Submitted(urb)]; Alternates(l) && Submissions(l) <= 3
    ensures var l := log + [Submitted(urb), Completed(urb, ok)]; Alternates(l) && Submissions(l) <= 3
  {
    HalfSubmitted(log + [Submitted(urb)]);
    HalfSubmitted(log + [Submitted(urb), Completed(urb, ok)]);
  }

  lemma {:induction false} PassedAlternates(script: seq<Urb>, k: nat)
    requires k <= |script| <= 3
    ensures Alternates(Passed(script, k))
  {
    if k > 0 {
      PassedAlternates(script, k - 1);
      OneMoreStage(Passed(script, k - 1), script[k - 1], true);
    }
  }

  lemma {:induction false} StageMatches(p: Probe, log: seq<LogEntry>, urb: Urb, ok: bool)
    requires Alternates(log) && |log| % 2 == 0 && |log| <= 4
    requires || (p.inflight == Some(urb) && p.log == log + [Submitted(urb)])
             || (p.inflight.None? && p.log == log + [Submitted(urb), Completed(urb, ok)])
    ensures LogMatchesFlight(p)
  {
    OneMoreStage(log, urb, ok);
    if p.inflight.Some? {
      assert Alternates(p.log) && |p.log| == |log| + 1;
    } else {
      assert Alternates(p.log) && |p.log| == |log| + 2;
    }
  }

  lemma FlyingMatches(p: Probe, k: nat)
    requires Sized(p) && k < |Script(Opcode(p.cbw))| && Flying(p, k)
    ensures LogMatchesFlight(p)
  {
    var script := Script(Opcode(p.cbw));
    PassedAlternates(script, k);
    StageMatches(p, Passed(script, k), script[k], true);
  }

  lemma LandedMatches(p: Probe, k: nat, ok: bool)
    requires Sized(p) && k < |Script(Opcode(p.cbw))| && Landed(p, k, ok)
    ensures LogMatchesFlight(p)
  {
    var script := Script(Opcode(p.cbw));
    PassedAlternates(script, k);
    StageMatches(p, Passed(script, k), script[k], ok);
  }

  lemma InvMatchesFlight(p: Probe)
    requires Inv(p)
    ensures LogMatchesFlight(p)
  {
    if p.log == [] && p.inflight.None? {
    } else if k: nat :| k < |Script(Opcode(p.cbw))| && Flying(p, k) {
      FlyingMatches(p, k);
    } else {
      var k: nat, ok :| k < |Script(Opcode(p.cbw))| && Landed(p, k, ok);
      LandedMatches(p, k, ok);
    }
  }

  /** At most three URBs are submitted, each only after the one before has completed; the one
      in flight, if any, is the last submitted. */
  lemma OneInFlight(wire: seq<Byte>, csw: seq<Byte>, accepted: bool, outcomes: seq<Outcome>)
    requires |wire| == CBW_LEN && |csw| == CSW_LEN
    ensures LogMatchesFlight(RunAll(Start(wire, csw, accepted), outcomes))
  {
    Reached(wire, csw, accepted, outcomes);
    InvMatchesFlight(RunAll(Start(wire, csw, accepted), outcomes));
  }

  lemma LogOrder(script: seq<Urb>, k: nat, tail: seq<LogEntry>, i: nat)
    requires k < |script| && 1 <= |tail| <= 2 && tail[0] == Submitted(script[k]) && (|tail| == 2 ==> tail[1].Completed?)
    requires i < 2 * k + |tail| && (Passed(script, k) + tail)[i].Submitted?
    ensures i % 2 == 0 && i / 2 <= k && (Passed(script, k) + tail)[i].urb == script[i / 2]
    ensures (Passed(script, k) + tail)[..i] == Passed(script, i / 2)
  {
    if i < 2 * k {
      PassedAt(script, k, i / 2);
      assert i == 2 * (i / 2);
      assert (Passed(script, k) + tail)[..i] == Passed(script, k)[..i];
    } else {
      assert i == 2 * k;
      assert (Passed(script, k) + tail)[..i] == Passed(script, k);
    }
  }

  /** Every completion brings the exchange nearer its end, which bounds it by three URBs. */
  function Rank(p: Probe): nat {
    match p.inflight
    case None => 0
    case Some(CbwUrb) => 3
    case Some(CswUrb) => 1
    case _ => 2
  }

  lemma RankDecreases(p: Probe, o: Outcome)
    requires Sized(p) && p.inflight.Some? && |o.received| == CSW_LEN
    ensures Rank(Complete(p, o)) < Rank(p)
  {
  }

  /** Success is reported only when the last status wrapper carries the tag of the completed
      command wrapper (section 6.3) -- and, as the code stands, CBW_SIG for a signature. */
  lemma SuccessMeansTagMatches(wire: seq<Byte>, csw: seq<Byte>, accepted: bool, outcomes: seq<Outcome>)
    requires |wire| == CBW_LEN && |csw| == CSW_LEN
    requires RunAll(Start(wire, csw, accepted), outcomes).success
    ensures var p := RunAll(Start(wire, csw, accepted), outcomes);
            && DecodeCsw(p.csw).tag == DecodeCbw(wire).tag && DecodeCsw(p.csw).signature == CBW_SIG
            && p.log == Passed(Script(Opcode(wire)), |Script(Opcode(wire))|)
            && Script(Opcode(wire))[|Script(Opcode(wire))| - 1] == CswUrb
  {
    Reached(wire, csw, accepted, outcomes);
  }

  /** Every stage succeeds, and every submission is accepted. */
  ghost predicate AllGood(outcomes: seq<Outcome>) {
    forall i | 0 <= i < |outcomes| :: outcomes[i].ok && outcomes[i].accepted && |outcomes[i].received| == CSW_LEN
  }

  /** When every stage of a known command succeeds, success is reported if and only if the
      wrapper received last has the command's tag and the signature CBW_SIG.  A valid wrapper
      in the sense of section 6.3 has the signature CSW_SIG and is therefore never accepted. */
  lemma {:induction false} SuccessExactly(wire: seq<Byte>, csw: seq<Byte>, outcomes: seq<Outcome>)
    requires |wire| == CBW_LEN && |csw| == CSW_LEN && DecodeCbw(wire).signature == CBW_SIG
    requires |outcomes| == |Script(Opcode(wire))| > 1 && AllGood(outcomes)
    ensures var p := RunAll(Start(wire, csw, true), outcomes);
            var status := DecodeCsw(outcomes[|outcomes| - 1].received);
            && p.log == Passed(Script(Opcode(wire)), |Script(Opcode(wire))|)
            && (p.success <==> status.tag == DecodeCbw(wire).tag && status.signature == CBW_SIG)
            && (status.signature == CSW_SIG ==> !p.success)
  {
    var n := |outcomes| - 1;
    GoodRun(wire, csw, outcomes[..n]);
    var p := RunAll(Start(wire, csw, true), outcomes[..n]);
    CompleteFlying(p, outcomes[n], n);
    assert Passed(Script(Opcode(wire)), n) + [Submitted(CswUrb), Completed(CswUrb, true)] == Passed(Script(Opcode(wire)), n + 1);
  }

  lemma {:induction false} GoodRun(wire: seq<Byte>, csw: seq<Byte>, outcomes: seq<Outcome>)
    requires |wire| == CBW_LEN && |csw| == CSW_LEN && DecodeCbw(wire).signature == CBW_SIG
    requires |outcomes| < |Script(Opcode(wire))| && AllGood(outcomes)
    ensures var p := RunAll(Start(wire, csw, true), outcomes); p.cbw == wire && Flying(p, |outcomes|)
  {
    if outcomes != [] {
      var n := |outcomes| - 1;
      GoodRun(wire, csw, outcomes[..n]);
      CompleteFlying(RunAll(Start(wire, csw, true), outcomes[..n]), outcomes[n], n);
    }
  }

  /** When the controller refuses the submission that follows the wrapper or the data stage, the
      exchange ends there without success; a refused data URB, and nothing else, is freed. */
  lemma RefusalEnds(p: Probe, o: Outcome, k: nat)
    requires Sized(p) && k + 1 < |Script(Opcode(p.cbw))| && Flying(p, k) && |o.received| == CSW_LEN
    requires o.ok && !o.accepted && DecodeCbw(p.cbw).signature == CBW_SIG
    ensures var q := Complete(p, o);
            && q.inflight.None? && !q.success && Landed(q, k, true)
            && q.freed == if Script(Opcode(p.cbw))[k + 1] == CswUrb then {} else {Script(Opcode(p.cbw))[k + 1]}
  {
    CompleteFlying(p, o, k);
  }

  /** A wrapper without CBW_SIG, an unknown opcode or a failed stage ends the exchange too. */
  lemma FailureEnds(p: Probe, o: Outcome, k: nat)
    requires Sized(p) && k < |Script(Opcode(p.cbw))| && Flying(p, k) && |o.received| == CSW_LEN
    requires !o.ok || (k == 0 && (DecodeCbw(p.cbw).signature != CBW_SIG || |Script(Opcode(p.cbw))| == 1))
    ensures var q := Complete(p, o); q.inflight.None? && !q.success && q.freed == {} && Landed(q, k, o.ok)
  {
    CompleteFlying(p, o, k);
  }

  // ----- The macros and the data stage

  /** For every macro and every parameter, the pipe of the data stage is the one the direction
      bit of bmCBWFlags announces, and a command without a data stage announces no data. */
  lemma PipeMatchesFlags(m: Macro)
    ensures var c := Build(m);
            match DataStage(c.cb[0])
            case None => c.dataLength == 0 && Script(c.cb[0]) == [CbwUrb, CswUrb]
            case Some(stage) =>
              && (stage.pipe == In <==> c.flags == 0x80) && (stage.pipe == Out <==> c.flags == 0x00)
              && Script(c.cb[0]) == [CbwUrb, stage.urb, CswUrb]
              && (stage.urb == WriteUrb <==> m.Write10?)
              && (stage.urb == ReadUrb <==> m.Read10? || m.ReadCapacity10?)
              && (stage.urb == InquiryUrb <==> m.Inquiry? || m.RequestSense?)
  {
  }

  /** The hard-coded length of the data stage is the announced dCBWDataTransferLength exactly
      for these parameters. */
  lemma LengthMatchesExactly(m: Macro)
    requires !m.TestUnitReady?
    ensures DataStage(Build(m).cb[0]).Some?
    ensures DataStage(Build(m).cb[0]).value.length == Build(m).dataLength <==>
      match m
      case TestUnitReady => true
      case RequestSense(n) => n % UINT_MODULUS == 18
      case Inquiry(n) => n % UINT_MODULUS == 36
      case ReadCapacity10 => true
      case Read10(_, num, size) => num * size % UINT_MODULUS == 512
      case Write10(_, num, size) => num * size % UINT_MODULUS == 15
  {
  }
}
