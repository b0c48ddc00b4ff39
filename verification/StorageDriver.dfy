/**
 The SCSI life cycle of usbv1.c: queue_command wraps a command and submits it, the three
 completion callbacks carry it through the phases of Bulk-Only Transport, and the error
 handlers abort or reset.

 The functions of the first part are the specification of the handlers over values; class
 `UsbStorage` is the driver, which updates its fields and byte buffers in place and is
 proved to meet them.  `done` lists the calls of scsi_done in order.
 */
module StorageDriver {
  import opened Kernel
  import opened BulkOnlyWire

  datatype Direction = Bidirectional | ToDevice | FromDevice | NoData

  datatype Command = Command(id: nat, cmnd: seq<Byte>, cmdLen: nat, bufflen: nat, direction: Direction)

  datatype Urb = CbwUrb | SecUrb | DataUrb | CswUrb

  datatype Status = DidOk | DidAbort | DidError

  datatype Done = Done(id: nat, status: Status)

  datatype Device = Device(resources: bool, bufferlength: nat, direction: Direction, active: Option<Command>,
                           tag: nat, count: nat, cbw: seq<Byte>, sec: seq<Byte>, csw: seq<Byte>,
                           inflight: set<Urb>, done: seq<Done>)

  /** cmnd is an array of at least 16 bytes, cmd_len an unsigned short. */
  predicate WellFormed(c: Command) {
    |c.cmnd| >= 16 && c.cmdLen < 0x1_0000 && c.bufflen < UINT_MODULUS
  }

  predicate Sized(d: Device) {
    |d.cbw| == CBW_LEN && |d.sec| == CBW_LEN && |d.csw| == CSW_LEN && d.tag < UINT_MODULUS
  }

  /** min_t(u8, cmd_len, 16): the length is cut to eight bits before the minimum is taken. */
  function CbLength(c: Command): Byte {
    if c.cmdLen % 256 < 16 then c.cmdLen % 256 else 16
  }

  function CommandBlock(c: Command): (b: seq<Byte>)
    requires WellFormed(c)
    ensures |b| == 16
  {
    c.cmnd[..CbLength(c)] + seq(16 - CbLength(c), _ => 0)
  }

  function WrapCommand(tag: nat, c: Command): (w: Cbw)
    requires WellFormed(c) && tag < UINT_MODULUS
    ensures CbwInRange(w)
  {
    Cbw(CBW_SIG, tag, c.bufflen, if c.direction.FromDevice? then 0x80 else 0x00, 0, CbLength(c), CommandBlock(c))
  }

  function ScsiDone(d: Device, status: Status): Device
    requires d.active.Some?
  {
    d.(done := d.done + [Done(d.active.value.id, status)])
  }

  /** usb_submit_urb: refused by the host controller, or because the URB is still active. */
  predicate Accepts(d: Device, urb: Urb, accepted: bool) {
    accepted && urb !in d.inflight
  }

  function CommandUrb(d: Device): (u: Urb) {
    if d.count == 0 then CbwUrb else SecUrb
  }

  /** Puts the wrapper into the buffer whose turn it is and submits the URB of that buffer. */
  function SendWrapper(d: Device, wire: seq<Byte>, accepted: bool): (Device, bool) {
    var urb := CommandUrb(d);
    var d1 := if d.count == 0 then d.(cbw := wire) else d.(sec := wire);
    if Accepts(d, urb, accepted) then (d1.(inflight := d.inflight + {urb}), true) else (d1, false)
  }

  /** The part of queue_command after the data buffer has been allocated. */
  function WrapAndSend(d: Device, c: Command, accepted: bool): (r: (Device, bool))
    requires Sized(d) && WellFormed(c) && d.active == Some(c)
    ensures Sized(r.0) && r.0.active == Some(c)
    ensures r.0.inflight == d.inflight + if r.1 then {CommandUrb(d)} else {}
  {
    var d1 := d.(tag := (d.tag + 1) % UINT_MODULUS);
    if !d.resources then (d1, false) else
    var (d2, sent) := SendWrapper(d1, EncodeCbw(WrapCommand(d.tag, c)), accepted);
    (if sent then d2 else ScsiDone(d2, DidError), sent)
  }

  /** `memory` tells whether kmalloc succeeds, `accepted` whether the controller takes the URB. */
  function QueueCommand(d: Device, c: Command, memory: bool, accepted: bool): (r: (Device, bool))
    requires Sized(d) && WellFormed(c)
    ensures Sized(r.0) && r.0.active == Some(c)
    ensures r.0.inflight == d.inflight + if r.1 then {CommandUrb(d)} else {}
  {
    var d1 := d.(bufferlength := c.bufflen, direction := c.direction, active := Some(c));
    if c.bufflen > 0 && !memory then (d1, false) else WrapAndSend(d1, c, accepted)
  }

  /** The callback of the status stage; `ok` is a URB status that is not negative. */
  function CswCallback(d: Device, ok: bool): (r: Device)
    requires Sized(d) && d.active.Some?
    ensures Sized(r) && r.inflight == d.inflight
  {
    var d1 := if ok then d else ScsiDone(d, DidError);
    if DecodeCsw(d.csw).signature != CSW_SIG then ScsiDone(d1, DidError)
    else ScsiDone(d1, DidOk).(active := None)
  }

  /** The callback of the data stage fakes a status wrapper and calls csw_callback itself. */
  function DataCallback(d: Device, ok: bool): (r: Device)
    requires Sized(d) && d.active.Some?
    ensures Sized(r) && r.inflight == d.inflight
  {
    var d1 := if ok then d else ScsiDone(d, DidAbort);
    CswCallback(d1.(csw := EncodeCsw(Csw(CSW_SIG, d.tag, 0, 0x00))), true)
  }

  /** The end of cbw_callback: submits the data or the status URB.  For a data-in command the
      submission is commented out in the source and only `count` is set. */
  function NextStage(d: Device, accepted: bool): Device
    requires d.active.Some?
  {
    if d.bufferlength > 0 && d.direction.FromDevice? then d.(count := 1)
    else if d.bufferlength > 0 && !d.direction.ToDevice? then d
    else
      var next := if d.bufferlength > 0 then DataUrb else CswUrb;
      if Accepts(d, next, accepted) then d.(inflight := d.inflight + {next})
      else ScsiDone(d, DidError)
  }

  function CbwCallback(d: Device, urb: Urb, ok: bool, accepted: bool): (r: Device)
    requires Sized(d) && d.active.Some?
    ensures Sized(r) && (r.inflight == d.inflight || r.active == d.active)
    ensures !ok ==> r.inflight == d.inflight
  {
    if !ok then ScsiDone(d, DidError) else
    var cbw := DecodeCbw(if urb.CbwUrb? then d.cbw else d.sec);
    if cbw.signature != CBW_SIG then d else
    if cbw.cb[0] == 0x12 then DataCallback(d, true) else
    NextStage(if cbw.cb[0] == 0x03 then ScsiDone(d, DidOk) else d, accepted)
  }

  /** The URB leaves the bus; `received` is what a status stage left in csw_buffer. */
  function Complete(d: Device, urb: Urb, ok: bool, accepted: bool, received: seq<Byte>): (r: Device)
    requires Sized(d) && d.active.Some? && |received| == CSW_LEN
    ensures Sized(r) && (r.inflight == d.inflight - {urb} || r.active == d.active)
    ensures !ok ==> r.inflight == d.inflight - {urb}
  {
    var d1 := d.(inflight := d.inflight - {urb});
    match urb
    case CswUrb => CswCallback(d1.(csw := received), ok)
    case DataUrb => DataCallback(d1, ok)
    case _ => CbwCallback(d1, urb, ok, accepted)
  }

  /** usb_kill_urb waits until the callback has run with a negative status. */
  function KillUrb(d: Device, urb: Urb): (r: Device)
    requires Sized(d) && (urb in d.inflight ==> d.active.Some?)
    ensures Sized(r) && r.inflight == d.inflight - {urb} && (urb !in d.inflight ==> r == d)
  {
    if urb in d.inflight then Complete(d, urb, false, false, d.csw) else d
  }

  /** The URBs that usb_eh_abort kills; sec_urb is not among them. */
  predicate OneKillable(d: Device) {
    && !(CbwUrb in d.inflight && CswUrb in d.inflight)
    && !(CbwUrb in d.inflight && DataUrb in d.inflight)
    && !(CswUrb in d.inflight && DataUrb in d.inflight)
    && (d.active.Some? || d.inflight <= {SecUrb})
  }

  function KillAll(d: Device): (r: Device)
    requires Sized(d) && OneKillable(d)
    ensures Sized(r) && r.inflight == d.inflight - {CbwUrb, CswUrb, DataUrb}
  {
    KillUrb(KillUrb(KillUrb(d, CbwUrb), CswUrb), DataUrb)
  }

  function Abort(d: Device, c: Command): Device
    requires Sized(d) && OneKillable(d)
  {
    var d1 := KillAll(d);
    d1.(done := d1.done + [Done(c.id, DidAbort)])
  }

  /** usb_eh_dev_reset and usb_eh_bus_reset, which differ only in the request they send. */
  function Reset(d: Device, ok: bool): Device {
    if ok then d.(tag := 0, active := None) else d
  }

  /** usb_disconnect, whose deallocation also leaves sec_urb alone. */
  function Disconnect(d: Device): Device
    requires Sized(d) && OneKillable(d)
  {
    KillAll(d.(tag := 0)).(resources := false)
  }

  // ----- The driver itself

  class UsbStorage {
    var resources: bool
    var bufferlength: nat
    var direction: Direction
    var activeScmd: Option<Command>
    var cbwTag: nat
    var count: nat
    var cbw: Cbw
    const cbwBuffer: array<Byte>
    const secBuffer: array<Byte>
    const cswBuffer: array<Byte>
    /** transfer_buffer of each URB that has been filled. */
    var transferBuffer: map<Urb, array<Byte>>
    var inflight: set<Urb>
    var done: seq<Done>

    ghost predicate Valid()
      reads this
    {
      && cbwBuffer.Length == CBW_LEN && secBuffer.Length == CBW_LEN && cswBuffer.Length == CSW_LEN
      && cbwBuffer != secBuffer && cbwBuffer != cswBuffer && secBuffer != cswBuffer
      && cbwTag < UINT_MODULUS && CbwInRange(cbw)
      && (CbwUrb in transferBuffer ==> transferBuffer[CbwUrb] == cbwBuffer)
      && (SecUrb in transferBuffer ==> transferBuffer[SecUrb] == secBuffer)
      && CswUrb in transferBuffer && transferBuffer[CswUrb] == cswBuffer
      && (CbwUrb in inflight ==> CbwUrb in transferBuffer) && (SecUrb in inflight ==> SecUrb in transferBuffer)
    }

    ghost function Snapshot(): Device
      reads this, cbwBuffer, secBuffer, cswBuffer
    {
      Device(resources, bufferlength, direction, activeScmd, cbwTag, count,
             cbwBuffer[..], secBuffer[..], cswBuffer[..], inflight, done)
    }

    /** usb_probe once allocate_usb_resource has succeeded; the status URB is bound to its
        buffer here, which the driver relies on when it fakes a status wrapper. */
    constructor ()
      ensures Valid() && fresh(cbwBuffer) && fresh(secBuffer) && fresh(cswBuffer)
      ensures resources && cbwTag == 1 && count == 0 && activeScmd.None? && inflight == {} && done == []
    {
      resources, bufferlength, direction, activeScmd, cbwTag, count := true, 0, NoData, None, 1, 0;
      cbw := Cbw(0, 0, 0, 0, 0, 0, seq(16, _ => 0));
      cbwBuffer := new Byte[CBW_LEN](_ => 0);
      secBuffer := new Byte[CBW_LEN](_ => 0);
      var status := new Byte[CSW_LEN](_ => 0);
      cswBuffer := status;
      transferBuffer := map[CswUrb := status];
      inflight, done := {}, [];
    }

    method Finish(status: Status)
      requires Valid() && activeScmd.Some?
      modifies this`done
      ensures Valid() && Snapshot() == ScsiDone(old(Snapshot()), status)
    {
      done := done + [Done(activeScmd.value.id, status)];
    }

    method SubmitUrb(urb: Urb, accepted: bool) returns (sent: bool)
      modifies this`inflight
      ensures sent == Accepts(old(Snapshot()), urb, accepted)
      ensures inflight == if sent then old(inflight) + {urb} else old(inflight)
    {
      sent := accepted && urb !in inflight;
      if sent {
        inflight := inflight + {urb};
      }
    }

    /** Wraps the command into `cbw` and takes the next tag. */
    method Wrap(c: Command)
      requires Valid() && WellFormed(c) && bufferlength == c.bufflen && direction == c.direction
      modifies this`cbw, this`cbwTag
      ensures Valid() && cbw == WrapCommand(old(cbwTag), c)
      ensures Snapshot() == old(Snapshot()).(tag := (old(cbwTag) + 1) % UINT_MODULUS)
    {
      cbw := Cbw(CBW_SIG, cbwTag, bufferlength, if direction.FromDevice? then 0x80 else 0x00, 0, CbLength(c), seq(16, _ => 0));
      cbwTag := (cbwTag + 1) % UINT_MODULUS;
      cbw := cbw.(cb := c.cmnd[..cbw.cbLength] + cbw.cb[cbw.cbLength..]);
    }

    /** Copies `cbw` into the buffer whose turn it is and submits the URB bound to it. */
    method SendCbw(accepted: bool) returns (sent: bool)
      requires Valid()
      modifies this`transferBuffer, this`inflight, cbwBuffer, secBuffer
      ensures Valid() && (Snapshot(), sent) == SendWrapper(old(Snapshot()), EncodeCbw(cbw), accepted)
      ensures var urb := CommandUrb(old(Snapshot()));
              urb in transferBuffer && transferBuffer[urb][..] == EncodeCbw(cbw)
    {
      if count == 0 {
        Memcpy(cbwBuffer, EncodeCbw(cbw));
        transferBuffer := transferBuffer[CbwUrb := cbwBuffer];
        sent := SubmitUrb(CbwUrb, accepted);
      } else {
        Memcpy(secBuffer, EncodeCbw(cbw));
        transferBuffer := transferBuffer[SecUrb := secBuffer];
        sent := SubmitUrb(SecUrb, accepted);
      }
    }

    method QueueCommandHandler(c: Command, memory: bool, accepted: bool) returns (queued: bool)
      requires Valid() && WellFormed(c)
      modifies this, cbwBuffer, secBuffer
      ensures Valid()
      ensures (Snapshot(), queued) == QueueCommand(old(Snapshot()), c, memory, accepted)
    {
      bufferlength := c.bufflen;
      direction := c.direction;
      activeScmd := Some(c);
      if bufferlength != 0 && !memory {
        return false;
      }
      queued := WrapAndSubmit(c, accepted);
    }

    /** The rest of queue_command. */
    method WrapAndSubmit(c: Command, accepted: bool) returns (queued: bool)
      requires Valid() && WellFormed(c) && activeScmd == Some(c) && bufferlength == c.bufflen && direction == c.direction
      modifies this, cbwBuffer, secBuffer
      ensures Valid() && (Snapshot(), queued) == WrapAndSend(old(Snapshot()), c, accepted)
    {
      Wrap(c);
      if !resources {
        return false;
      }
      queued := SendCbw(accepted);
      if !queued {
        Finish(DidError);
      }
    }

    method CswCallbackHandler(ok: bool)
      requires Valid() && activeScmd.Some?
      modifies this
      ensures Valid() && Snapshot() == CswCallback(old(Snapshot()), ok)
    {
      if !ok {
        Finish(DidError);
      }
      var csw := DecodeCsw(transferBuffer[CswUrb][..]);
      if csw.signature != CSW_SIG {
        Finish(DidError);
        return;
      }
      Finish(DidOk);
      activeScmd := None;
    }

    method DataCallbackHandler(ok: bool)
      requires Valid() && activeScmd.Some?
      modifies this, cswBuffer
      ensures Valid() && Snapshot() == DataCallback(old(Snapshot()), ok)
    {
      if !ok {
        Finish(DidAbort);
      }
      Memcpy(cswBuffer, EncodeCsw(Csw(CSW_SIG, cbwTag, 0, 0x00)));
      CswCallbackHandler(true);
    }

    method CbwCallbackHandler(urb: Urb, ok: bool, accepted: bool)
      requires Valid() && activeScmd.Some? && (urb.CbwUrb? || urb.SecUrb?) && urb in transferBuffer
      modifies this, cswBuffer
      ensures Valid() && Snapshot() == CbwCallback(old(Snapshot()), urb, ok, accepted)
    {
      if !ok {
        Finish(DidError);
        return;
      }
      var wrapper := DecodeCbw(transferBuffer[urb][..]);
      if wrapper.signature != CBW_SIG {
        return;
      }
      match wrapper.cb[0] {
        case 0x12 =>
          DataCallbackHandler(true);
          return;
        case 0x03 =>
          Finish(DidOk);
        case _ =>
      }
      SubmitNextStage(accepted);
    }

    method SubmitNextStage(accepted: bool)
      requires Valid() && activeScmd.Some?
      modifies this
      ensures Valid() && Snapshot() == NextStage(old(Snapshot()), accepted)
    {
      var sent := true;
      if bufferlength > 0 {
        if direction.FromDevice? {
          count := 1;
          return;
        }
        if direction.ToDevice? {
          sent := SubmitUrb(DataUrb, accepted);
        }
      } else {
        transferBuffer := transferBuffer[CswUrb := cswBuffer];
        sent := SubmitUrb(CswUrb, accepted);
      }
      if !sent {
        Finish(DidError);
      }
    }

    /** An in-flight URB completes: the controller gives it back and calls its callback. */
    method CompleteUrb(urb: Urb, ok: bool, accepted: bool, received: seq<Byte>)
      requires Valid() && activeScmd.Some? && urb in inflight && |received| == CSW_LEN
      modifies this, cswBuffer
      ensures Valid() && Snapshot() == Complete(old(Snapshot()), urb, ok, accepted, received)
    {
      inflight := inflight - {urb};
      match urb {
        case CswUrb =>
          Memcpy(cswBuffer, received);
          CswCallbackHandler(ok);
        case DataUrb =>
          DataCallbackHandler(ok);
        case _ =>
          CbwCallbackHandler(urb, ok, accepted);
      }
    }

    method Kill(urb: Urb)
      requires Valid() && (urb in inflight ==> activeScmd.Some?)
      modifies this, cswBuffer
      ensures Valid() && Snapshot() == KillUrb(old(Snapshot()), urb)
    {
      if urb in inflight {
        CompleteUrb(urb, false, false, cswBuffer[..]);
      }
    }

    method KillUrbs()
      requires Valid() && OneKillable(Snapshot())
      modifies this, cswBuffer
      ensures Valid() && Snapshot() == KillAll(old(Snapshot()))
    {
      Kill(CbwUrb);
      Kill(CswUrb);
      Kill(DataUrb);
    }

    method UsbDisconnect()
      requires Valid() && OneKillable(Snapshot())
      modifies this, cswBuffer
      ensures Valid() && Snapshot() == Disconnect(old(Snapshot()))
    {
      cbwTag := 0;
      KillUrbs();
      resources := false;
    }

    method EhAbort(c: Command)
      requires Valid() && OneKillable(Snapshot())
      modifies this, cswBuffer
      ensures Valid() && Snapshot() == Abort(old(Snapshot()), c)
    {
      KillUrbs();
      done := done + [Done(c.id, DidAbort)];
    }

    method EhReset(ok: bool) returns (success: bool)
      requires Valid()
      modifies this
      ensures Valid() && success == ok && Snapshot() == Reset(old(Snapshot()), ok)
    {
      if !ok {
        return false;
      }
      cbwTag := 0;
      activeScmd := None;
      return true;
    }
  }

  // ----- What queue_command puts on the wire

  /** The opcode the device and cbw_callback see: byte 0 of the wrapped command block. */
  function Opcode(c: Command): Byte
    requires WellFormed(c)
  {
    CommandBlock(c)[0]
  }

  lemma {:induction false} CommandBlockBytes(c: Command)
    requires WellFormed(c)
    ensures forall i | 0 <= i < 16 :: CommandBlock(c)[i] == if i < CbLength(c) then c.cmnd[i] else 0
    ensures CbLength(c) == (if c.cmdLen < 16 then c.cmdLen else 16) <==> c.cmdLen < 256 || c.cmdLen % 256 >= 16
  {
  }

  /** The submitted buffer decodes to a valid, meaningful wrapper (section 6.2): the device's
      tag, the buffer length, the direction bit, and the command bytes padded with zeros.  The
      block is the first min(cmd_len, 16) bytes exactly unless the 8-bit cut of cmd_len is
      below both 16 and cmd_len. */
  lemma {:induction false} SubmittedWrapper(d: Device, c: Command, memory: bool, accepted: bool)
    requires Sized(d) && WellFormed(c) && QueueCommand(d, c, memory, accepted).1
    ensures var d' := QueueCommand(d, c, memory, accepted).0;
            var w := DecodeCbw(if d.count == 0 then d'.cbw else d'.sec);
            && d'.inflight == d.inflight + {if d.count == 0 then CbwUrb else SecUrb}
            && w.signature == CBW_SIG && w.tag == d.tag && w.dataLength == c.bufflen && w.lun == 0
            && w.flags == (if c.direction.FromDevice? then 0x80 else 0)
            && (forall i | 0 <= i < 16 :: w.cb[i] == if i < w.cbLength then c.cmnd[i] else 0)
            && (w.cbLength == (if c.cmdLen < 16 then c.cmdLen else 16) <==> c.cmdLen < 256 || c.cmdLen % 256 >= 16)
  {
    CbwRoundTrip(WrapCommand(d.tag, c));
    CommandBlockBytes(c);
  }

  /** A length of 257 is cut to 1.  The SCSI core, whose command array is shorter, passes none
      such. */
  lemma LongCommandIsCut(d: Device, c: Command, memory: bool, accepted: bool)
    requires Sized(d) && WellFormed(c) && QueueCommand(d, c, memory, accepted).1 && c.cmdLen == 257
    ensures var d' := QueueCommand(d, c, memory, accepted).0;
            var w := DecodeCbw(if d.count == 0 then d'.cbw else d'.sec);
            w.cbLength == 1 && w.cb == [c.cmnd[0]] + seq(15, _ => 0)
  {
    CbwRoundTrip(WrapCommand(d.tag, c));
  }

  /** After a disconnect nothing but a still flying sec_urb is left, and no command is taken. */
  lemma NothingAfterDisconnect(d: Device, c: Command, memory: bool, accepted: bool)
    requires Sized(d) && OneKillable(d) && WellFormed(c)
    ensures var d' := Disconnect(d);
            && Sized(d') && d'.tag == 0 && d'.inflight == d.inflight - {CbwUrb, CswUrb, DataUrb}
            && !QueueCommand(d', c, memory, accepted).1
            && QueueCommand(d', c, memory, accepted).0.done == d'.done
  {
  }

  // ----- The stages of one command

  predicate Quiet(d: Device) {
    Sized(d) && d.resources && d.inflight == {}
  }

  /** The command has a data-out or a status stage of its own after the wrapper. */
  predicate HasNextStage(c: Command) {
    c.bufflen == 0 || c.direction.ToDevice?
  }

  function NextUrb(c: Command): Urb {
    if c.bufflen > 0 then DataUrb else CswUrb
  }

  /** `c` is the active command and `urb` is the only URB in flight. */
  predicate Busy(d: Device, c: Command, urb: Urb) {
    && Sized(d) && d.resources && d.inflight == {urb}
    && d.active == Some(c) && d.bufferlength == c.bufflen && d.direction == c.direction
  }

  /** The only URB in flight carries the wrapper of `c`. */
  predicate Carrying(d: Device, c: Command, urb: Urb)
    requires WellFormed(c)
  {
    && Busy(d, c, urb) && (urb.CbwUrb? || urb.SecUrb?)
    && var w := DecodeCbw(if urb.CbwUrb? then d.cbw else d.sec);
       w.signature == CBW_SIG && w.cb == CommandBlock(c)
  }

  lemma QueueStage(d: Device, c: Command, memory: bool, accepted: bool)
    requires Quiet(d) && WellFormed(c)
    ensures var (d1, queued) := QueueCommand(d, c, memory, accepted);
            && d1.active == Some(c) && d1.bufferlength == c.bufflen && d1.direction == c.direction && d1.count == d.count
            && (queued <==> (c.bufflen > 0 ==> memory) && accepted)
            && (queued ==> Carrying(d1, c, CommandUrb(d)) && d1.done == d.done)
            && (!queued ==> Quiet(d1) && d1.done == d.done + if c.bufflen > 0 && !memory then [] else [Done(c.id, DidError)])
  {
    CbwRoundTrip(WrapCommand(d.tag, c));
  }

  function SenseDone(c: Command): seq<Done>
    requires WellFormed(c)
  {
    if Opcode(c) == 0x03 then [Done(c.id, DidOk)] else []
  }

  /** What a completed wrapper of `c` makes of `d`. */
  predicate AfterCbw(d: Device, c: Command, ok: bool, accepted: bool, e: Device)
    requires WellFormed(c)
  {
    if !ok then Quiet(e) && e.done == d.done + [Done(c.id, DidError)]
    else if Opcode(c) == 0x12 then Quiet(e) && e.done == d.done + [Done(c.id, DidOk)]
    else if !HasNextStage(c) then Quiet(e) && e.done == d.done + SenseDone(c)
    else if !accepted then Quiet(e) && e.done == d.done + SenseDone(c) + [Done(c.id, DidError)]
    else Busy(e, c, NextUrb(c)) && e.done == d.done + SenseDone(c)
  }

  lemma {:induction false} CbwStage(d: Device, c: Command, urb: Urb, ok: bool, accepted: bool, received: seq<Byte>)
    requires WellFormed(c) && Carrying(d, c, urb) && |received| == CSW_LEN
    ensures AfterCbw(d, c, ok, accepted, Complete(d, urb, ok, accepted, received))
  {
    CswRoundTrip(Csw(CSW_SIG, d.tag, 0, 0x00));
  }

  lemma DataStage(d: Device, c: Command, ok: bool, accepted: bool, received: seq<Byte>)
    requires Busy(d, c, DataUrb) && |received| == CSW_LEN
    ensures var e := Complete(d, DataUrb, ok, accepted, received);
            Quiet(e) && e.done == d.done + (if ok then [] else [Done(c.id, DidAbort)]) + [Done(c.id, DidOk)]
  {
    CswRoundTrip(Csw(CSW_SIG, d.tag, 0, 0x00));
  }

  /** The result is DID_OK exactly when the signature is right: neither the tag nor the status
      byte that section 6.3 makes part of a valid and meaningful wrapper is looked at. */
  lemma CswStage(d: Device, c: Command, ok: bool, accepted: bool, received: seq<Byte>)
    requires Busy(d, c, CswUrb) && |received| == CSW_LEN
    ensures var e := Complete(d, CswUrb, ok, accepted, received);
            var status := if DecodeCsw(received).signature == CSW_SIG then DidOk else DidError;
            Quiet(e) && e.done == d.done + (if ok then [] else [Done(c.id, DidError)]) + [Done(c.id, status)]
  {
  }

  // ----- How often one command is completed

  datatype Outcome = Outcome(memory: bool, cbwAccepted: bool, cbwOk: bool, nextAccepted: bool, nextOk: bool, received: seq<Byte>)

  /** Let the data or status stage complete, if one was submitted. */
  function LastStage(d: Device, o: Outcome): Device
    requires Sized(d) && (d.inflight != {} ==> d.active.Some?) && |o.received| == CSW_LEN
  {
    if DataUrb in d.inflight then Complete(d, DataUrb, o.nextOk, false, o.received)
    else if CswUrb in d.inflight then Complete(d, CswUrb, o.nextOk, false, o.received)
    else d
  }

  /** Queue one command on a quiet device and let every URB it causes complete. */
  function LoneRun(d: Device, c: Command, o: Outcome): Device
    requires Quiet(d) && WellFormed(c) && |o.received| == CSW_LEN
  {
    var (d1, queued) := QueueCommand(d, c, o.memory, o.cbwAccepted);
    if queued then LastStage(Complete(d1, CommandUrb(d), o.cbwOk, o.nextAccepted, o.received), o) else d1
  }

  /** The wrapper reaches the device, so that cbw_callback looks at the opcode. */
  predicate WrapperSent(c: Command, o: Outcome) {
    (c.bufflen == 0 || o.memory) && o.cbwAccepted && o.cbwOk
  }

  /** The calls of scsi_done that the last stage makes. */
  function LastCalls(c: Command, o: Outcome): seq<Done>
    requires |o.received| == CSW_LEN
  {
    if c.bufflen > 0 then
      (if o.nextOk then [] else [Done(c.id, DidAbort)]) + [Done(c.id, DidOk)]
    else
      (if o.nextOk then [] else [Done(c.id, DidError)])
      + [Done(c.id, if DecodeCsw(o.received).signature == CSW_SIG then DidOk else DidError)]
  }

  lemma LastStageCalls(d: Device, c: Command, o: Outcome)
    requires WellFormed(c) && Busy(d, c, NextUrb(c)) && |o.received| == CSW_LEN
    ensures LastStage(d, o).inflight == {} && LastStage(d, o).done == d.done + LastCalls(c, o)
  {
    if c.bufflen > 0 {
      DataStage(d, c, o.nextOk, false, o.received);
      assert d.done + LastCalls(c, o) == LastStage(d, o).done;
    } else {
      CswStage(d, c, o.nextOk, false, o.received);
      assert d.done + LastCalls(c, o) == LastStage(d, o).done;
    }
  }

  /** All calls of scsi_done, in order, from the wrapper's completion on. */
  function CallsAfterCbw(c: Command, o: Outcome): seq<Done>
    requires WellFormed(c) && |o.received| == CSW_LEN
  {
    if !o.cbwOk then [Done(c.id, DidError)]
    else if Opcode(c) == 0x12 then [Done(c.id, DidOk)]
    else SenseDone(c) + if !HasNextStage(c) then [] else if !o.nextAccepted then [Done(c.id, DidError)] else LastCalls(c, o)
  }

  lemma {:induction false} CallsFromCbw(d: Device, c: Command, urb: Urb, o: Outcome)
    requires WellFormed(c) && Carrying(d, c, urb) && |o.received| == CSW_LEN
    ensures var e := LastStage(Complete(d, urb, o.cbwOk, o.nextAccepted, o.received), o);
            e.inflight == {} && e.done == d.done + CallsAfterCbw(c, o)
  {
    CbwStage(d, c, urb, o.cbwOk, o.nextAccepted, o.received);
    var d2 := Complete(d, urb, o.cbwOk, o.nextAccepted, o.received);
    if d2.inflight != {} {
      LastStageCalls(d2, c, o);
      assert d.done + SenseDone(c) + LastCalls(c, o) == d.done + CallsAfterCbw(c, o);
    } else {
      assert d2.done == d.done + CallsAfterCbw(c, o);
    }
  }

  function Calls(c: Command, o: Outcome): seq<Done>
    requires WellFormed(c) && |o.received| == CSW_LEN
  {
    if c.bufflen > 0 && !o.memory then []
    else if !o.cbwAccepted then [Done(c.id, DidError)]
    else CallsAfterCbw(c, o)
  }

  lemma LoneCalls(d: Device, c: Command, o: Outcome)
    requires Quiet(d) && WellFormed(c) && |o.received| == CSW_LEN
    ensures LoneRun(d, c, o).inflight == {} && LoneRun(d, c, o).done == d.done + Calls(c, o)
  {
    QueueStage(d, c, o.memory, o.cbwAccepted);
    var (d1, queued) := QueueCommand(d, c, o.memory, o.cbwAccepted);
    if queued {
      CallsFromCbw(d1, c, CommandUrb(d), o);
    }
  }

  lemma CountCalls(c: Command, o: Outcome)
    requires WellFormed(c) && |o.received| == CSW_LEN
    ensures var calls := Calls(c, o);
            && |calls| <= 3 && (forall i | 0 <= i < |calls| :: calls[i].id == c.id)
            && (|calls| == 0 <==> (c.bufflen > 0 && !o.memory) || (WrapperSent(c, o) && Stuck(c)))
            && (|calls| >= 2 <==> WrapperSent(c, o) && Opcode(c) != 0x12 && HasNextStage(c) && (Opcode(c) == 0x03 || (o.nextAccepted && !o.nextOk)))
  {
  }

  /** For every command and every outcome of its allocations, submissions and URBs: the calls
      of scsi_done are all for this command; there is none exactly when memory runs out or a
      data stage is never submitted; and there are two or more exactly when a REQUEST SENSE
      has a further stage or the further stage of another command fails. */
  lemma LoneCompletions(d: Device, c: Command, o: Outcome)
    requires Quiet(d) && WellFormed(c) && |o.received| == CSW_LEN
    ensures var e := LoneRun(d, c, o);
            var n := |e.done| - |d.done|;
            && 0 <= n <= 3 && e.done[..|d.done|] == d.done && e.inflight == {}
            && (forall i | |d.done| <= i < |e.done| :: e.done[i].id == c.id)
            && (n == 0 <==> (c.bufflen > 0 && !o.memory) || (WrapperSent(c, o) && Stuck(c)))
            && (n >= 2 <==> WrapperSent(c, o) && Opcode(c) != 0x12 && HasNextStage(c) && (Opcode(c) == 0x03 || (o.nextAccepted && !o.nextOk)))
  {
    LoneCalls(d, c, o);
    CountCalls(c, o);
  }

  /** A command that usbv1.c completes at most once when nothing goes wrong. */
  predicate Safe(c: Command)
    requires WellFormed(c)
  {
    Opcode(c) == 0x03 ==> !HasNextStage(c)
  }

  /** A command that waits for an abort even when nothing goes wrong. */
  predicate Stuck(c: Command)
    requires WellFormed(c)
  {
    Opcode(c) !in {0x12, 0x03} && !HasNextStage(c)
  }

  predicate AllGood(o: Outcome) {
    o.memory && o.cbwAccepted && o.cbwOk && o.nextAccepted && o.nextOk && |o.received| == CSW_LEN
  }

  lemma AtMostOnceExactly(d: Device, c: Command, o: Outcome)
    requires Quiet(d) && WellFormed(c) && AllGood(o)
    ensures |LoneRun(d, c, o).done| - |d.done| <= 1 <==> Safe(c)
    ensures |LoneRun(d, c, o).done| == |d.done| <==> Stuck(c)
  {
    LoneCompletions(d, c, o);
  }

  /** A six-byte command with the given opcode. */
  function Plain(id: nat, opcode: Byte, bufflen: nat, direction: Direction): (c: Command)
    requires bufflen < UINT_MODULUS
    ensures WellFormed(c) && Opcode(c) == opcode
  {
    Command(id, [opcode] + seq(15, _ => 0), 6, bufflen, direction)
  }

  const TEST: Byte := 0x00
  const SENSE: Byte := 0x03
  const READ: Byte := 0x28

  /** A six-byte REQUEST SENSE without a buffer is completed by line 534 and once more by the
      status stage that follows, which here reports what the device sent. */
  lemma SenseCompletedTwice(d: Device, id: nat, o: Outcome)
    requires Quiet(d) && AllGood(o)
    ensures var c := Plain(id, SENSE, 0, NoData);
            && !Safe(c)
            && LoneRun(d, c, o).done
               == d.done + [Done(id, DidOk), Done(id, if DecodeCsw(o.received).signature == CSW_SIG then DidOk else DidError)]
  {
    LoneCalls(d, Plain(id, SENSE, 0, NoData), o);
  }

  /** An abort completes its command once exactly when no URB it kills is in flight; killing
      one runs its callback, which completes the command once or twice more. */
  lemma AbortCompletions(d: Device, c: Command, urb: Urb)
    requires Quiet(d) || Busy(d, c, urb)
    ensures OneKillable(d)
    ensures var e := Abort(d, c);
            var n := |e.done| - |d.done|;
            && n == (if d.inflight == {} then 1 else match urb case SecUrb => 1 case CbwUrb => 2 case DataUrb => 3 case CswUrb => 3)
            && (n == 1 <==> d.inflight <= {SecUrb})
            && e.done[..|d.done|] == d.done && (forall i | |d.done| <= i < |e.done| :: e.done[i].id == c.id)
            && e.inflight == d.inflight - {CbwUrb, CswUrb, DataUrb}
  {
  }

  /** A command that is completed while a URB of its own is in flight lets the next command
      put a second one there: this happens exactly to the commands that are not safe. */
  lemma TwoInFlightExactly(d: Device, c: Command, urb: Urb, received: seq<Byte>, next: Command)
    requires WellFormed(c) && Carrying(d, c, urb) && |received| == CSW_LEN && WellFormed(next)
    ensures var e := Complete(d, urb, true, true, received);
            && (|e.done| > |d.done| && e.inflight != {} <==> !Safe(c))
            && (!Safe(c) ==> QueueCommand(e, next, true, true).0.inflight == {NextUrb(c), CommandUrb(e)} && NextUrb(c) != CommandUrb(e))
  {
    CbwStage(d, c, urb, true, true, received);
  }

  /** An abort does not kill sec_urb: the next command is refused because that URB is still
      active, and completed once more when the URB comes back. */
  lemma SecUrbOutlivesAbort(d: Device, c: Command, next: Command, received: seq<Byte>)
    requires Busy(d, c, SecUrb) && d.count > 0 && WellFormed(next) && |received| == CSW_LEN
    ensures var (d1, queued) := QueueCommand(Abort(d, c), next, true, true);
            && Abort(d, c).done == d.done + [Done(c.id, DidAbort)] && !queued
            && Complete(d1, SecUrb, false, false, received).done
               == Abort(d, c).done + [Done(next.id, DidError)] + [Done(next.id, DidError)]
  {
  }

  // ----- A callback in two halves

  /** What a callback has still to do after its first call of scsi_done. */
  datatype Rest =
    | Ends
    | Submits                 // line 534: submit the next stage
    | Fakes                   // line 652: fake a status wrapper and call csw_callback
    | Checks(scmd: Command)   // line 728: look at the signature; `scmd` is the local variable
    | Clears                  // line 744: clear active_scmd

  function CswFirst(d: Device, ok: bool): (r: (Device, Rest))
    requires Sized(d) && d.active.Some?
    ensures Sized(r.0) && r.0.active == d.active
  {
    if !ok then (ScsiDone(d, DidError), Checks(d.active.value))
    else if DecodeCsw(d.csw).signature != CSW_SIG then (ScsiDone(d, DidError), Ends)
    else (ScsiDone(d, DidOk), Clears)
  }

  function FakeStatus(d: Device): (r: Device)
    requires Sized(d)
    ensures Sized(r) && r.active == d.active
  {
    d.(csw := EncodeCsw(Csw(CSW_SIG, d.tag, 0, 0x00)))
  }

  function DataFirst(d: Device, ok: bool): (r: (Device, Rest))
    requires Sized(d) && d.active.Some?
    ensures Sized(r.0) && r.0.active == d.active
  {
    if !ok then (ScsiDone(d, DidAbort), Fakes) else CswFirst(FakeStatus(d), true)
  }

  function CbwFirst(d: Device, urb: Urb, ok: bool, accepted: bool): (r: (Device, Rest))
    requires Sized(d) && d.active.Some?
    ensures Sized(r.0) && r.0.active == d.active
  {
    if !ok then (ScsiDone(d, DidError), Ends) else
    var cbw := DecodeCbw(if urb.CbwUrb? then d.cbw else d.sec);
    if cbw.signature != CBW_SIG then (d, Ends) else
    if cbw.cb[0] == 0x12 then DataFirst(d, true) else
    if cbw.cb[0] == 0x03 then (ScsiDone(d, DidOk), Submits) else (NextStage(d, accepted), Ends)
  }

  /** The callback of a completed URB up to and with its first call of scsi_done. */
  function FirstHalf(d: Device, urb: Urb, ok: bool, accepted: bool, received: seq<Byte>): (r: (Device, Rest))
    requires Sized(d) && d.active.Some? && |received| == CSW_LEN
    ensures Sized(r.0) && r.0.active == d.active
  {
    var d1 := d.(inflight := d.inflight - {urb});
    match urb
    case CswUrb => CswFirst(d1.(csw := received), ok)
    case DataUrb => DataFirst(d1, ok)
    case _ => CbwFirst(d1, urb, ok, accepted)
  }

  /** The rest of the callback, which reads the fields of the device afresh. */
  function SecondHalf(d: Device, rest: Rest, accepted: bool): (r: Device)
    requires Sized(d) && d.active.Some?
    ensures Sized(r)
  {
    match rest
    case Ends => d
    case Submits => NextStage(d, accepted)
    case Fakes => CswCallback(FakeStatus(d), true)
    case Checks(scmd) =>
      if DecodeCsw(d.csw).signature != CSW_SIG then ScsiDone(d, DidError)
      else d.(done := d.done + [Done(scmd.id, DidOk)], active := None)
    case Clears => d.(active := None)
  }

  lemma {:induction false} DataHalves(d: Device, ok: bool, accepted: bool)
    requires Sized(d) && d.active.Some?
    ensures var (d1, rest) := DataFirst(d, ok); SecondHalf(d1, rest, accepted) == DataCallback(d, ok)
  {
  }

  lemma {:induction false} CbwHalves(d: Device, urb: Urb, ok: bool, accepted: bool)
    requires Sized(d) && d.active.Some?
    ensures var (d1, rest) := CbwFirst(d, urb, ok, accepted); SecondHalf(d1, rest, accepted) == CbwCallback(d, urb, ok, accepted)
  {
    DataHalves(d, true, accepted);
  }

  /** With nothing in between the two halves are the callback. */
  lemma {:induction false} HalvesMakeWhole(d: Device, urb: Urb, ok: bool, accepted: bool, received: seq<Byte>)
    requires Sized(d) && d.active.Some? && |received| == CSW_LEN
    ensures var (d1, rest) := FirstHalf(d, urb, ok, accepted, received);
            SecondHalf(d1, rest, accepted) == Complete(d, urb, ok, accepted, received)
  {
    var d1 := d.(inflight := d.inflight - {urb});
    DataHalves(d1, ok, accepted);
    CbwHalves(d1, urb, ok, accepted);
  }

  /** Queueing on an idle bus touches neither the status buffer nor anything queued before. */
  lemma {:induction false} QueueOnIdle(d: Device, next: Command)
    requires Quiet(d) && WellFormed(next)
    ensures var (e, queued) := QueueCommand(d, next, true, true);
            && queued && Sized(e) && e.inflight == {CommandUrb(d)} && e.active == Some(next)
            && e.csw == d.csw && e.done == d.done
  {
  }

  /** The calls of scsi_done of an overtaken last stage: after a failing data stage, and after a
      failing status stage with a bad signature, the second call completes the next command. */
  function OvertakenCalls(c: Command, urb: Urb, ok: bool, received: seq<Byte>, next: Command): seq<Done>
    requires |received| == CSW_LEN
  {
    if urb.DataUrb? then (if ok then [Done(c.id, DidOk)] else [Done(c.id, DidAbort), Done(next.id, DidOk)])
    else if DecodeCsw(received).signature == CSW_SIG then
      (if ok then [Done(c.id, DidOk)] else [Done(c.id, DidError), Done(c.id, DidOk)])
    else
      (if ok then [Done(c.id, DidError)] else [Done(c.id, DidError), Done(next.id, DidError)])
  }

  /** The last stage of `c` completes, and the next command gets in at the first scsi_done:
      its wrapper is in flight, and it has been erased from `active` unless the status wrapper
      has a bad signature; and it can have been completed although nothing was done for it. */
  lemma {:induction false} OvertakenExactly(d: Device, c: Command, urb: Urb, ok: bool, received: seq<Byte>, next: Command)
    requires Busy(d, c, urb) && (urb.DataUrb? || urb.CswUrb?) && |received| == CSW_LEN && WellFormed(next)
    ensures var (d1, rest) := FirstHalf(d, urb, ok, true, received);
            var (d2, queued) := QueueCommand(d1, next, true, true);
            var e := SecondHalf(d2, rest, true);
            && queued && e.inflight == {CommandUrb(d)}
            && (e.active.None? <==> urb.DataUrb? || DecodeCsw(received).signature == CSW_SIG)
            && e.done == d.done + OvertakenCalls(c, urb, ok, received, next)
  {
    var (d1, rest) := FirstHalf(d, urb, ok, true, received);
    assert Quiet(d1) && CommandUrb(d1) == CommandUrb(d);
    QueueOnIdle(d1, next);
    if urb.DataUrb? {
      CswRoundTrip(Csw(CSW_SIG, d.tag, 0, 0x00));
      CswRoundTrip(Csw(CSW_SIG, QueueCommand(d1, next, true, true).0.tag, 0, 0x00));
    }
  }

  /** A REQUEST SENSE without a further stage is overtaken after line 534: the rest of the
      callback submits a stage of its own for the next command, next to that command's wrapper,
      exactly if it has one. */
  lemma {:induction false} OvertakenSense(d: Device, c: Command, urb: Urb, received: seq<Byte>, next: Command)
    requires WellFormed(c) && Carrying(d, c, urb) && Opcode(c) == 0x03 && !HasNextStage(c)
    requires |received| == CSW_LEN && WellFormed(next)
    ensures var (d1, rest) := FirstHalf(d, urb, true, true, received);
            var (d2, queued) := QueueCommand(d1, next, true, true);
            SecondHalf(d2, rest, true).inflight == {CommandUrb(d)} + if HasNextStage(next) then {NextUrb(next)} else {}
  {
    var (d1, rest) := FirstHalf(d, urb, true, true, received);
    QueueOnIdle(d1, next);
    assert rest == Submits;
  }

  // ----- Runs of many commands

  /** What happens to a host with can_queue 1: the SCSI layer queues the next command once the
      last one has been completed, a URB in flight completes well or badly, the outstanding
      command is aborted, and the host is reset, which takes back the outstanding command.  A
      command is not queued again.  A callback runs to its end before anything else happens,
      save that a URB can be `Overtaken`: the next command is queued at the first scsi_done of
      its callback, before the rest of it. */
  datatype Event =
    | Queue(command: Command, memory: bool, accepted: bool)
    | Completes(urb: Urb, ok: bool, accepted: bool, received: seq<Byte>)
    | Overtaken(urb: Urb, ok: bool, accepted: bool, received: seq<Byte>, next: Command, memory: bool, nextAccepted: bool)
    | AbortOutstanding
    | ResetHost(ok: bool)

  /** What the SCSI layer may do: queue a REQUEST SENSE with a further stage, reset the host
      (with success) with a URB in flight, abort with sec_urb in flight, queue a command while
      the callback that completed the last one is still running. */
  datatype Layer = Layer(senses: bool, resetsBusy: bool, abortsSecond: bool, overtakes: bool)

  const CAREFUL := Layer(false, false, false, false)

  /** History: `takenBack` are the commands a reset took back, `disturbed` those whose data or
      status stage failed or that were aborted with a URB in flight. */
  datatype Run = Run(device: Device, outstanding: Option<Command>, queued: seq<Command>, takenBack: set<nat>, disturbed: set<nat>)

  /** A callback that finds no active command would dereference NULL (lines 436, 632 and 743):
      it is no step here, and `CallbacksFindCommandExactly` says when it cannot happen. */
  predicate Enabled(layer: Layer, r: Run, e: Event) {
    match e
    case Queue(c, _, _) =>
      r.outstanding.None? && Sized(r.device) && WellFormed(c) && (layer.senses || Safe(c)) && Fresh(r, c.id)
    case Completes(urb, _, _, received) =>
      urb in r.device.inflight && r.device.active.Some? && Sized(r.device) && |received| == CSW_LEN
    case Overtaken(urb, _, _, received, _, _, _) =>
      layer.overtakes && urb in r.device.inflight && r.device.active.Some? && Sized(r.device) && |received| == CSW_LEN
    case AbortOutstanding =>
      && r.outstanding.Some? && Sized(r.device) && OneKillable(r.device)
      && (layer.abortsSecond || SecUrb !in r.device.inflight)
    case ResetHost(ok) =>
      !ok || layer.resetsBusy || r.device.inflight == {}
  }

  predicate Fresh(r: Run, id: nat) {
    forall i | 0 <= i < |r.queued| :: r.queued[i].id != id
  }

  /** How often scsi_done has been called for the command `id`. */
  function Times(done: seq<Done>, id: nat): nat {
    if done == [] then 0
    else Times(done[..|done| - 1], id) + if done[|done| - 1].id == id then 1 else 0
  }

  /** The SCSI layer forgets the outstanding command as soon as it has been completed. */
  function Settle(r: Run): Run {
    if r.outstanding.Some? && Times(r.device.done, r.outstanding.value.id) > 0 then r.(outstanding := None) else r
  }

  function Mark(r: Run, disturbed: bool): Run {
    if r.outstanding.Some? && disturbed then r.(disturbed := r.disturbed + {r.outstanding.value.id}) else r
  }

  function TakeBack(r: Run): Run {
    if r.outstanding.Some? then r.(outstanding := None, takenBack := r.takenBack + {r.outstanding.value.id}) else r
  }

  function AfterUrb(r: Run, urb: Urb, ok: bool, accepted: bool, received: seq<Byte>): Run
    requires Sized(r.device) && r.device.active.Some? && |received| == CSW_LEN
  {
    Settle(Mark(r.(device := Complete(r.device, urb, ok, accepted, received)), !ok && (urb.DataUrb? || urb.CswUrb?)))
  }

  function AfterQueue(r: Run, c: Command, memory: bool, accepted: bool): (q: Run)
    requires Sized(r.device) && WellFormed(c)
    ensures Sized(q.device) && q.device.active == Some(c)
  {
    var (d, ok) := QueueCommand(r.device, c, memory, accepted);
    if ok || Times(d.done, c.id) > 0 then Settle(r.(device := d, outstanding := Some(c), queued := r.queued + [c]))
    else r.(device := d)
  }

  /** An overtaken callback is at its first scsi_done. */
  function HalfWay(layer: Layer, r: Run, e: Event): (q: Run)
    requires e.Overtaken? && Enabled(layer, r, e)
    ensures Sized(q.device) && q.device.active.Some?
  {
    var d := FirstHalf(r.device, e.urb, e.ok, e.accepted, e.received).0;
    Settle(Mark(r.(device := d), !e.ok && (e.urb.DataUrb? || e.urb.CswUrb?)))
  }

  /** The next command is queued between the halves, if the first half leaves room for it. */
  function AfterOvertaken(layer: Layer, r: Run, e: Event): Run
    requires e.Overtaken? && Enabled(layer, r, e)
  {
    var rest := FirstHalf(r.device, e.urb, e.ok, e.accepted, e.received).1;
    var r1 := HalfWay(layer, r, e);
    var r2 := if Enabled(layer, r1, Queue(e.next, e.memory, e.nextAccepted)) then AfterQueue(r1, e.next, e.memory, e.nextAccepted) else r1;
    Settle(r2.(device := SecondHalf(r2.device, rest, e.accepted)))
  }

  function RunStep(layer: Layer, r: Run, e: Event): Run {
    if !Enabled(layer, r, e) then r else
    match e
    case Queue(c, memory, accepted) =>
      AfterQueue(r, c, memory, accepted)
    case Completes(urb, ok, accepted, received) =>
      AfterUrb(r, urb, ok, accepted, received)
    case Overtaken(_, _, _, _, _, _, _) =>
      AfterOvertaken(layer, r, e)
    case AbortOutstanding =>
      Settle(Mark(r.(device := Abort(r.device, r.outstanding.value)), r.device.inflight != {}))
    case ResetHost(ok) =>
      if ok then TakeBack(r.(device := Reset(r.device, true))) else r.(device := Reset(r.device, false))
  }

  function RunAll(layer: Layer, r: Run, events: seq<Event>): Run {
    if events == [] then r
    else RunStep(layer, RunAll(layer, r, events[..|events| - 1]), events[|events| - 1])
  }

  /** Where the outstanding command is. */
  ghost predicate Phase(d: Device, c: Command)
    requires WellFormed(c)
  {
    || (exists urb :: Carrying(d, c, urb))
    || (HasNextStage(c) && Opcode(c) !in {0x12, 0x03} && Busy(d, c, NextUrb(c)))
    || (Stuck(c) && Quiet(d))
  }

  /** A queued command is outstanding, was taken back, or has been completed: once exactly if
      it was not disturbed. */
  ghost predicate Accounted(r: Run, c: Command) {
    var n := Times(r.device.done, c.id);
    && WellFormed(c) && Safe(c)
    && (if r.outstanding == Some(c) || c.id in r.takenBack then n == 0
        else if c.id in r.disturbed then 2 <= n <= 3 else n == 1)
    && (c.id in r.takenBack ==> Stuck(c))
  }

  ghost predicate Books(r: Run) {
    && (forall i, j | 0 <= i < j < |r.queued| :: r.queued[i].id != r.queued[j].id)
    && (forall i | 0 <= i < |r.queued| :: Accounted(r, r.queued[i]))
    && (forall id | Fresh(r, id) :: Times(r.device.done, id) == 0 && id !in r.takenBack && id !in r.disturbed)
    && (r.outstanding.Some? ==>
          var c := r.outstanding.value;
          && |r.queued| > 0 && c == r.queued[|r.queued| - 1] && WellFormed(c) && c.id !in r.takenBack && c.id !in r.disturbed
          && Times(r.device.done, c.id) == 0)
  }

  ghost predicate RunInv(r: Run) {
    && Books(r)
    && (if r.outstanding.None? then Quiet(r.device) else WellFormed(r.outstanding.value) && Phase(r.device, r.outstanding.value))
  }

  lemma {:induction false} TimesOfMany(done: seq<Done>, calls: seq<Done>, own: nat, id: nat)
    requires forall i | 0 <= i < |calls| :: calls[i].id == own
    ensures Times(done + calls, id) == Times(done, id) + if id == own then |calls| else 0
  {
    if calls == [] {
      assert done + calls == done;
    } else {
      var n := |calls| - 1;
      assert (done + calls)[..|done| + n] == done + calls[..n];
      TimesOfMany(done, calls[..n], own, id);
    }
  }

  /** The outstanding command is completed by `calls`, more than once exactly if disturbed. */
  lemma {:induction false} Completed(r: Run, d: Device, calls: seq<Done>, disturbed: bool)
    requires Books(r) && r.outstanding.Some? && Quiet(d) && d.done == r.device.done + calls
    requires forall i | 0 <= i < |calls| :: calls[i].id == r.outstanding.value.id
    requires if disturbed then 2 <= |calls| <= 3 else |calls| == 1
    ensures RunInv(Settle(Mark(r.(device := d), disturbed)))
  {
    var c := r.outstanding.value;
    var r' := Mark(r.(device := d), disturbed).(outstanding := None);
    TimesOfMany(r.device.done, calls, c.id, c.id);
    assert Settle(Mark(r.(device := d), disturbed)) == r';
    forall i | 0 <= i < |r.queued|
      ensures Accounted(r', r.queued[i])
    {
      assert Accounted(r, r.queued[i]);
      TimesOfMany(r.device.done, calls, c.id, r.queued[i].id);
    }
    forall id | Fresh(r', id)
      ensures Times(d.done, id) == 0 && id !in r'.disturbed
    {
      assert Fresh(r, id) && id != c.id;
      TimesOfMany(r.device.done, calls, c.id, id);
    }
  }

  lemma {:induction false} Advanced(r: Run, d: Device)
    requires Books(r) && r.outstanding.Some?
    requires d.done == r.device.done && Phase(d, r.outstanding.value)
    ensures RunInv(Settle(Mark(r.(device := d), false)))
  {
    var r' := r.(device := d);
    assert Settle(Mark(r', false)) == r';
    forall i | 0 <= i < |r.queued|
      ensures Accounted(r', r.queued[i])
    {
      assert Accounted(r, r.queued[i]);
    }
    assert forall id | Fresh(r', id) :: Fresh(r, id);
  }

  lemma {:induction false} WrapperDone(r: Run, e: Device, ok: bool, accepted: bool)
    requires Books(r) && r.outstanding.Some? && Safe(r.outstanding.value)
    requires AfterCbw(r.device, r.outstanding.value, ok, accepted, e)
    ensures RunInv(Settle(Mark(r.(device := e), false)))
  {
    var c := r.outstanding.value;
    if !ok {
      Completed(r, e, [Done(c.id, DidError)], false);
    } else if Opcode(c) == 0x12 || Opcode(c) == 0x03 {
      Completed(r, e, [Done(c.id, DidOk)], false);
    } else {
      assert r.device.done + SenseDone(c) == r.device.done;
      if HasNextStage(c) && !accepted {
        Completed(r, e, [Done(c.id, DidError)], false);
      } else {
        Advanced(r, e);
      }
    }
  }

  lemma {:induction false} CbwCompletes(r: Run, urb: Urb, ok: bool, accepted: bool, received: seq<Byte>)
    requires Books(r) && r.outstanding.Some? && Safe(r.outstanding.value) && Carrying(r.device, r.outstanding.value, urb) && |received| == CSW_LEN
    ensures RunInv(AfterUrb(r, urb, ok, accepted, received))
  {
    CbwStage(r.device, r.outstanding.value, urb, ok, accepted, received);
    WrapperDone(r, Complete(r.device, urb, ok, accepted, received), ok, accepted);
  }

  lemma {:induction false} LastCompletes(r: Run, urb: Urb, ok: bool, accepted: bool, received: seq<Byte>)
    requires Books(r) && r.outstanding.Some? && Busy(r.device, r.outstanding.value, urb) && |received| == CSW_LEN
    requires urb == NextUrb(r.outstanding.value)
    ensures RunInv(AfterUrb(r, urb, ok, accepted, received))
  {
    var c := r.outstanding.value;
    var e := Complete(r.device, urb, ok, accepted, received);
    var calls := LastCalls(c, Outcome(true, true, true, true, ok, received));
    if urb.DataUrb? {
      DataStage(r.device, c, ok, accepted, received);
    } else {
      CswStage(r.device, c, ok, accepted, received);
    }
    assert e.done == r.device.done + calls;
    Completed(r, e, calls, !ok);
  }

  lemma {:induction false} CompletesKeepsInv(r: Run, urb: Urb, ok: bool, accepted: bool, received: seq<Byte>)
    requires RunInv(r) && Enabled(CAREFUL, r, Completes(urb, ok, accepted, received))
    ensures RunInv(RunStep(CAREFUL, r, Completes(urb, ok, accepted, received)))
  {
    var c := r.outstanding.value;
    if u :| Carrying(r.device, c, u) {
      assert u == urb && Accounted(r, c);
      CbwCompletes(r, urb, ok, accepted, received);
    } else {
      assert NextUrb(c) == urb;
      LastCompletes(r, urb, ok, accepted, received);
    }
  }

  lemma {:induction false} Entered(r: Run, c: Command)
    requires RunInv(r) && r.outstanding.None? && WellFormed(c) && Safe(c) && Fresh(r, c.id)
    ensures Books(r.(outstanding := Some(c), queued := r.queued + [c]))
  {
    var r' := r.(outstanding := Some(c), queued := r.queued + [c]);
    forall i | 0 <= i < |r'.queued|
      ensures Accounted(r', r'.queued[i])
    {
      if i < |r.queued| {
        assert Accounted(r, r.queued[i]);
      }
    }
    forall id | Fresh(r', id)
      ensures Fresh(r, id)
    {
      assert forall i | 0 <= i < |r.queued| :: r'.queued[i] == r.queued[i];
    }
  }

  lemma {:induction false} SameBooks(r: Run, d: Device)
    requires Books(r) && d.done == r.device.done
    ensures Books(r.(device := d))
  {
    var r' := r.(device := d);
    assert forall i | 0 <= i < |r.queued| :: Accounted(r, r.queued[i]) ==> Accounted(r', r.queued[i]);
    assert forall id | Fresh(r', id) :: Fresh(r, id);
  }

  lemma {:induction false} QueueKeepsInv(r: Run, c: Command, memory: bool, accepted: bool)
    requires RunInv(r) && Enabled(CAREFUL, r, Queue(c, memory, accepted))
    ensures RunInv(RunStep(CAREFUL, r, Queue(c, memory, accepted)))
  {
    QueueStage(r.device, c, memory, accepted);
    var (d, ok) := QueueCommand(r.device, c, memory, accepted);
    var r' := r.(outstanding := Some(c), queued := r.queued + [c]);
    Entered(r, c);
    if ok {
      SameBooks(r', d);
    } else if c.bufflen > 0 && !memory {
      SameBooks(r, d);
    } else {
      TimesOfMany(r.device.done, [Done(c.id, DidError)], c.id, c.id);
      Completed(r', d, [Done(c.id, DidError)], false);
    }
  }

  lemma {:induction false} AbortKeepsInv(r: Run)
    requires RunInv(r) && Enabled(CAREFUL, r, AbortOutstanding)
    ensures RunInv(RunStep(CAREFUL, r, AbortOutstanding))
  {
    var c := r.outstanding.value;
    var e := Abort(r.device, c);
    var urb :| Quiet(r.device) || Busy(r.device, c, urb);
    AbortCompletions(r.device, c, urb);
    var calls := e.done[|r.device.done|..];
    assert e.done == r.device.done + calls;
    Completed(r, e, calls, r.device.inflight != {});
  }

  lemma {:induction false} ResetKeepsInv(r: Run, ok: bool)
    requires RunInv(r) && Enabled(CAREFUL, r, ResetHost(ok))
    ensures RunInv(RunStep(CAREFUL, r, ResetHost(ok)))
  {
    var d := Reset(r.device, ok);
    if !ok || r.outstanding.None? {
      SameBooks(r, d);
    } else {
      TakenBack(r, d);
    }
  }

  lemma {:induction false} TakenBack(r: Run, d: Device)
    requires RunInv(r) && r.outstanding.Some? && r.device.inflight == {} && Quiet(d) && d.done == r.device.done
    ensures RunInv(TakeBack(r.(device := d)))
  {
    var c := r.outstanding.value;
    var r' := TakeBack(r.(device := d));
    forall i | 0 <= i < |r.queued|
      ensures Accounted(r', r.queued[i])
    {
      assert Accounted(r, r.queued[i]);
    }
    forall id | Fresh(r', id)
      ensures Fresh(r, id) && id != c.id
    {
      assert r.queued[|r.queued| - 1] == c;
    }
  }

  lemma {:induction false} StepKeepsInv(r: Run, e: Event)
    requires RunInv(r)
    ensures RunInv(RunStep(CAREFUL, r, e))
  {
    if Enabled(CAREFUL, r, e) {
      match e
      case Queue(c, memory, accepted) => QueueKeepsInv(r, c, memory, accepted);
      case Completes(urb, ok, accepted, received) => CompletesKeepsInv(r, urb, ok, accepted, received);
      case Overtaken(_, _, _, _, _, _, _) => assert false;
      case AbortOutstanding => AbortKeepsInv(r);
      case ResetHost(ok) => ResetKeepsInv(r, ok);
    }
  }

  /** usb_probe has just succeeded. */
  predicate Probed(r: Run) {
    && Quiet(r.device) && r.device.tag == 1 && r.device.count == 0 && r.device.active.None? && r.device.done == []
    && r.outstanding.None? && r.queued == [] && r.takenBack == {} && r.disturbed == {}
  }

  lemma {:induction false} RunAllInv(r: Run, events: seq<Event>)
    requires Probed(r)
    ensures RunInv(RunAll(CAREFUL, r, events))
  {
    if events == [] {
      assert Books(r);
    } else {
      RunAllInv(r, events[..|events| - 1]);
      StepKeepsInv(RunAll(CAREFUL, r, events[..|events| - 1]), events[|events| - 1]);
    }
  }

  /** Over every run of safe commands, with any failure of memory, submissions and URBs, any
      abort that does not meet sec_urb in flight and any reset of an idle bus: at most one URB
      is in flight, and then the active command is the outstanding one; scsi_done is called
      for queued commands alone, not while they are outstanding or after a reset took them
      back, and otherwise at least once and at most three times: exactly once if and only if
      the command was not disturbed.  Only commands that `Stuck` names ever wait with no URB
      in flight. */
  lemma {:induction false} CompletionsOfEveryCommand(r: Run, events: seq<Event>, id: nat)
    requires Probed(r)
    ensures var e := RunAll(CAREFUL, r, events);
            var n := Times(e.device.done, id);
            && |e.device.inflight| <= 1
            && (e.device.inflight != {} ==> e.device.active.Some? && e.device.active == e.outstanding)
            && (e.outstanding.Some? && e.device.inflight == {} ==> WellFormed(e.outstanding.value) && Stuck(e.outstanding.value))
            && (Fresh(e, id) || (e.outstanding.Some? && e.outstanding.value.id == id) || id in e.takenBack ==> n == 0)
            && (!Fresh(e, id) && (e.outstanding.Some? ==> e.outstanding.value.id != id) && id !in e.takenBack ==>
                  1 <= n <= 3 && (n == 1 <==> id !in e.disturbed))
  {
    RunAllInv(r, events);
    var e := RunAll(CAREFUL, r, events);
    assert e.outstanding.Some? ==> Phase(e.device, e.outstanding.value);
    if !Fresh(e, id) {
      var i :| 0 <= i < |e.queued| && e.queued[i].id == id;
      assert Accounted(e, e.queued[i]);
    }
  }

  /** No URB fails and nothing is aborted. */
  predicate Undisturbed(events: seq<Event>) {
    forall i | 0 <= i < |events| :: !events[i].AbortOutstanding? && (events[i].Completes? ==> events[i].ok)
  }

  lemma {:induction false} NobodyDisturbed(r: Run, events: seq<Event>)
    requires Probed(r) && Undisturbed(events)
    ensures RunAll(CAREFUL, r, events).disturbed == {}
  {
    if events != [] {
      NobodyDisturbed(r, events[..|events| - 1]);
      assert events[|events| - 1].Completes? ==> events[|events| - 1].ok;
    }
  }

  /** Over every run of safe commands without URB error or abort no command is completed twice,
      and once the bus is idle every queued command has been completed exactly once, save those
      that `Stuck` names. */
  lemma {:induction false} EveryCommandOnce(r: Run, events: seq<Event>, i: nat)
    requires Probed(r) && Undisturbed(events) && i < |RunAll(CAREFUL, r, events).queued|
    ensures var e := RunAll(CAREFUL, r, events);
            var n := Times(e.device.done, e.queued[i].id);
            && n <= 1 && WellFormed(e.queued[i])
            && (e.device.inflight == {} && !Stuck(e.queued[i]) ==> n == 1)
  {
    RunAllInv(r, events);
    NobodyDisturbed(r, events);
    var e := RunAll(CAREFUL, r, events);
    assert Accounted(e, e.queued[i]);
    assert e.outstanding.Some? ==> Phase(e.device, e.outstanding.value);
  }

  // ----- The tags on the wire

  /** A wrapper that was submitted: its bytes, and how many successful resets and, since the
      last of them, how many wrappers built came before it. */
  datatype Wire = Wire(bytes: seq<Byte>, resets: nat, place: nat)

  /** What a run has put on the wire.  `built` counts the wrappers queue_command built since the
      last successful reset, submitted or refused. */
  datatype Trace = Trace(resets: nat, built: nat, wires: seq<Wire>)

  /** queue_command builds a wrapper unless memory fails first, and may submit it. */
  function NoteQueue(d: Device, c: Command, memory: bool, accepted: bool, trace: Trace): Trace
    requires Sized(d) && WellFormed(c)
  {
    var (e, queued) := QueueCommand(d, c, memory, accepted);
    var bytes := if CommandUrb(d).CbwUrb? then e.cbw else e.sec;
    if c.bufflen > 0 && !memory then trace
    else Trace(trace.resets, trace.built + 1, trace.wires + if queued then [Wire(bytes, trace.resets, trace.built)] else [])
  }

  function Note(layer: Layer, r: Run, e: Event, trace: Trace): Trace {
    if !Enabled(layer, r, e) then trace else
    match e
    case Queue(c, memory, accepted) => NoteQueue(r.device, c, memory, accepted, trace)
    case Overtaken(_, _, _, _, next, memory, accepted) =>
      var r1 := HalfWay(layer, r, e);
      if Enabled(layer, r1, Queue(next, memory, accepted)) then NoteQueue(r1.device, next, memory, accepted, trace) else trace
    case ResetHost(ok) => if ok then Trace(trace.resets + 1, 0, trace.wires) else trace
    case _ => trace
  }

  function TraceOf(layer: Layer, start: Run, events: seq<Event>): Trace {
    if events == [] then Trace(0, 0, [])
    else
      var before := events[..|events| - 1];
      Note(layer, RunAll(layer, start, before), events[|events| - 1], TraceOf(layer, start, before))
  }

  /** The tag of the wrapper with this place: counting starts at 1 after probe, at 0 after a
      reset. */
  function TagAt(resets: nat, place: nat): nat {
    (place + if resets == 0 then 1 else 0) % UINT_MODULUS
  }

  ghost predicate WireInv(trace: Trace, w: Wire) {
    && |w.bytes| == CBW_LEN && DecodeCbw(w.bytes).signature == CBW_SIG && DecodeCbw(w.bytes).tag == TagAt(w.resets, w.place)
    && (w.resets < trace.resets || (w.resets == trace.resets && w.place < trace.built))
  }

  ghost predicate TraceInv(d: Device, trace: Trace) {
    && d.tag == TagAt(trace.resets, trace.built)
    && (forall i | 0 <= i < |trace.wires| :: WireInv(trace, trace.wires[i]))
    && (forall i, j | 0 <= i < j < |trace.wires| :: Before(trace.wires[i], trace.wires[j]))
  }

  predicate Before(v: Wire, w: Wire) {
    v.resets < w.resets || (v.resets == w.resets && v.place < w.place)
  }

  lemma {:induction false} QueueOnWire(d: Device, c: Command, memory: bool, accepted: bool)
    requires Sized(d) && d.resources && WellFormed(c)
    ensures var (e, queued) := QueueCommand(d, c, memory, accepted);
            var bytes := if CommandUrb(d).CbwUrb? then e.cbw else e.sec;
            && e.resources && e.tag == (if c.bufflen > 0 && !memory then d.tag else (d.tag + 1) % UINT_MODULUS)
            && (queued ==> !(c.bufflen > 0 && !memory))
            && (!(c.bufflen > 0 && !memory) ==> |bytes| == CBW_LEN && DecodeCbw(bytes) == WrapCommand(d.tag, c))
            && (if c.bufflen > 0 && !memory then e.cbw == d.cbw && e.sec == d.sec
                else if CommandUrb(d).CbwUrb? then e.sec == d.sec else e.cbw == d.cbw)
  {
    CbwRoundTrip(WrapCommand(d.tag, c));
  }

  /** One more wrapper is built; `sent` is its bytes, if it was submitted. */
  lemma {:induction false} TraceGrows(d: Device, e: Device, trace: Trace, sent: Option<seq<Byte>>)
    requires TraceInv(d, trace) && e.tag == (d.tag + 1) % UINT_MODULUS
    requires sent.Some? ==> |sent.value| == CBW_LEN && DecodeCbw(sent.value).signature == CBW_SIG && DecodeCbw(sent.value).tag == d.tag
    ensures TraceInv(e, Trace(trace.resets, trace.built + 1,
                              trace.wires + if sent.Some? then [Wire(sent.value, trace.resets, trace.built)] else []))
  {
    Increment(trace.built + if trace.resets == 0 then 1 else 0, UINT_MODULUS);
    var after := Trace(trace.resets, trace.built + 1,
                       trace.wires + if sent.Some? then [Wire(sent.value, trace.resets, trace.built)] else []);
    forall i | 0 <= i < |after.wires|
      ensures WireInv(after, after.wires[i])
    {
      if i < |trace.wires| {
        assert WireInv(trace, trace.wires[i]);
      }
    }
    forall i, j | 0 <= i < j < |after.wires|
      ensures Before(after.wires[i], after.wires[j])
    {
      assert WireInv(trace, trace.wires[i]);
    }
  }

  lemma {:induction false} QueueKeepsTrace(d: Device, c: Command, memory: bool, accepted: bool, trace: Trace)
    requires Sized(d) && d.resources && WellFormed(c) && TraceInv(d, trace)
    ensures var e := QueueCommand(d, c, memory, accepted).0; e.resources && TraceInv(e, NoteQueue(d, c, memory, accepted, trace))
  {
    QueueOnWire(d, c, memory, accepted);
    var (e, queued) := QueueCommand(d, c, memory, accepted);
    if c.bufflen > 0 && !memory {
      SameTag(d, e, trace);
    } else {
      TraceGrows(d, e, trace, if queued then Some(if CommandUrb(d).CbwUrb? then e.cbw else e.sec) else None);
    }
  }

  /** The device after the next command has been queued, if it can be. */
  lemma {:induction false} NextKeepsTrace(layer: Layer, r: Run, c: Command, memory: bool, accepted: bool, trace: Trace) returns (d: Device)
    requires Sized(r.device) && r.device.active.Some? && r.device.resources && TraceInv(r.device, trace)
    ensures var enabled := Enabled(layer, r, Queue(c, memory, accepted));
            && d == (if enabled then AfterQueue(r, c, memory, accepted).device else r.device)
            && TraceInv(d, if enabled then NoteQueue(r.device, c, memory, accepted, trace) else trace)
    ensures Sized(d) && d.active.Some? && d.resources
  {
    d := r.device;
    if Enabled(layer, r, Queue(c, memory, accepted)) {
      QueueKeepsTrace(r.device, c, memory, accepted, trace);
      d := QueueCommand(r.device, c, memory, accepted).0;
    }
  }

  lemma {:induction false} CbwFirstKeepsTag(d: Device, urb: Urb, ok: bool, accepted: bool)
    requires Sized(d) && d.active.Some?
    ensures var e := CbwFirst(d, urb, ok, accepted).0; e.tag == d.tag && e.resources == d.resources
  {
  }

  lemma {:induction false} FirstHalfKeepsTag(d: Device, urb: Urb, ok: bool, accepted: bool, received: seq<Byte>)
    requires Sized(d) && d.active.Some? && |received| == CSW_LEN
    ensures var e := FirstHalf(d, urb, ok, accepted, received).0; e.tag == d.tag && e.resources == d.resources
  {
    CbwFirstKeepsTag(d.(inflight := d.inflight - {urb}), urb, ok, accepted);
  }

  /** No callback touches the tag or the resources. */
  lemma {:induction false} CallbacksKeepTag(d: Device, urb: Urb, ok: bool, accepted: bool, received: seq<Byte>)
    requires Sized(d) && d.active.Some? && |received| == CSW_LEN
    ensures var e := Complete(d, urb, ok, accepted, received); e.tag == d.tag && e.resources == d.resources
  {
    var (d1, rest) := FirstHalf(d, urb, ok, accepted, received);
    FirstHalfKeepsTag(d, urb, ok, accepted, received);
    SecondHalfKeepsTag(d1, rest, accepted);
    HalvesMakeWhole(d, urb, ok, accepted, received);
  }

  lemma {:induction false} AbortKeepsTag(d: Device, c: Command)
    requires Sized(d) && OneKillable(d)
    ensures Abort(d, c).tag == d.tag && Abort(d, c).resources == d.resources
  {
    var d1 := KillUrb(d, CbwUrb);
    var d2 := KillUrb(d1, CswUrb);
    KillKeepsTag(d, CbwUrb);
    KillKeepsTag(d1, CswUrb);
    KillKeepsTag(d2, DataUrb);
  }

  lemma {:induction false} KillKeepsTag(d: Device, urb: Urb)
    requires Sized(d) && (urb in d.inflight ==> d.active.Some?)
    ensures KillUrb(d, urb).tag == d.tag && KillUrb(d, urb).resources == d.resources
  {
    if urb in d.inflight {
      CallbacksKeepTag(d, urb, false, false, d.csw);
    }
  }

  lemma {:induction false} SameTag(d: Device, e: Device, trace: Trace)
    requires TraceInv(d, trace) && e.tag == d.tag
    ensures TraceInv(e, trace)
  {
  }

  lemma {:induction false} OvertakenKeepsTrace(layer: Layer, r: Run, e: Event, trace: Trace)
    requires e.Overtaken? && Enabled(layer, r, e) && TraceInv(r.device, trace) && r.device.resources
    ensures TraceInv(AfterOvertaken(layer, r, e).device, Note(layer, r, e, trace)) && AfterOvertaken(layer, r, e).device.resources
  {
    FirstHalfKeepsTag(r.device, e.urb, e.ok, e.accepted, e.received);
    var r1 := HalfWay(layer, r, e);
    var rest := FirstHalf(r.device, e.urb, e.ok, e.accepted, e.received).1;
    SameTag(r.device, r1.device, trace);
    var d := NextKeepsTrace(layer, r1, e.next, e.memory, e.nextAccepted, trace);
    SecondHalfKeepsTag(d, rest, e.accepted);
    SameTag(d, SecondHalf(d, rest, e.accepted), Note(layer, r, e, trace));
  }

  lemma {:induction false} SecondHalfKeepsTag(d: Device, rest: Rest, accepted: bool)
    requires Sized(d) && d.active.Some?
    ensures SecondHalf(d, rest, accepted).tag == d.tag && SecondHalf(d, rest, accepted).resources == d.resources
  {
  }

  lemma {:induction false} StepKeepsTrace(layer: Layer, r: Run, e: Event, trace: Trace)
    requires TraceInv(r.device, trace) && r.device.resources
    ensures TraceInv(RunStep(layer, r, e).device, Note(layer, r, e, trace)) && RunStep(layer, r, e).device.resources
  {
    if Enabled(layer, r, e) {
      match e
      case Queue(c, memory, accepted) => QueueKeepsTrace(r.device, c, memory, accepted, trace);
      case Completes(urb, ok, accepted, received) =>
        CallbacksKeepTag(r.device, urb, ok, accepted, received);
        SameTag(r.device, Complete(r.device, urb, ok, accepted, received), trace);
      case Overtaken(_, _, _, _, _, _, _) => OvertakenKeepsTrace(layer, r, e, trace);
      case AbortOutstanding =>
        AbortKeepsTag(r.device, r.outstanding.value);
        SameTag(r.device, Abort(r.device, r.outstanding.value), trace);
      case ResetHost(ok) =>
        if ok {
          ResetKeepsTrace(r.device, trace);
        }
    }
  }

  lemma {:induction false} ResetKeepsTrace(d: Device, trace: Trace)
    requires TraceInv(d, trace)
    ensures TraceInv(Reset(d, true), Trace(trace.resets + 1, 0, trace.wires))
  {
    forall i | 0 <= i < |trace.wires|
      ensures WireInv(Trace(trace.resets + 1, 0, trace.wires), trace.wires[i])
    {
      assert WireInv(trace, trace.wires[i]);
    }
  }

  lemma {:induction false} TraceKept(layer: Layer, start: Run, events: seq<Event>)
    requires Probed(start)
    ensures TraceInv(RunAll(layer, start, events).device, TraceOf(layer, start, events)) && RunAll(layer, start, events).device.resources
  {
    if events != [] {
      var before := events[..|events| - 1];
      TraceKept(layer, start, before);
      StepKeepsTrace(layer, RunAll(layer, start, before), events[|events| - 1], TraceOf(layer, start, before));
    }
  }

  /** Over every run, whatever the SCSI layer does: each wrapper on the wire carries 1 more than
      the number of wrappers built before it since probe, or the number built before it since
      the last successful reset, modulo 2^32.  So with no reset in between two wrappers have the
      same tag if and only if a multiple of 2^32 wrappers separates them. */
  lemma {:induction false} TagsOnTheWire(layer: Layer, start: Run, events: seq<Event>, i: nat, j: nat)
    requires Probed(start) && i < j < |TraceOf(layer, start, events).wires|
    ensures var v, w := TraceOf(layer, start, events).wires[i], TraceOf(layer, start, events).wires[j];
            && |v.bytes| == CBW_LEN && |w.bytes| == CBW_LEN && Before(v, w)
            && DecodeCbw(v.bytes).tag == TagAt(v.resets, v.place) && DecodeCbw(w.bytes).tag == TagAt(w.resets, w.place)
            && (v.resets == w.resets ==>
                  (DecodeCbw(v.bytes).tag == DecodeCbw(w.bytes).tag <==> (w.place - v.place) % UINT_MODULUS == 0))
  {
    TraceKept(layer, start, events);
    var trace := TraceOf(layer, start, events);
    var v, w := trace.wires[i], trace.wires[j];
    assert WireInv(trace, v) && WireInv(trace, w) && Before(v, w);
    if v.resets == w.resets {
      SameTagsExactly(v.place + if v.resets == 0 then 1 else 0, w.place + if w.resets == 0 then 1 else 0);
    }
  }

  lemma SameTagsExactly(x: nat, y: nat)
    requires x <= y
    ensures x % UINT_MODULUS == y % UINT_MODULUS <==> (y - x) % UINT_MODULUS == 0
  {
  }

  /** Queueing always gets the next wrapper onto a free bus: the trace grows by one. */
  lemma {:induction false} QueueIsOnTheWire(layer: Layer, start: Run, events: seq<Event>, c: Command)
    requires Probed(start) && Enabled(layer, RunAll(layer, start, events), Queue(c, true, true))
    requires CommandUrb(RunAll(layer, start, events).device) !in RunAll(layer, start, events).device.inflight
    ensures var trace, after := TraceOf(layer, start, events), TraceOf(layer, start, events + [Queue(c, true, true)]);
            && |after.wires| == |trace.wires| + 1 && after.wires[..|trace.wires|] == trace.wires
            && after.wires[|trace.wires|].resets == trace.resets && after.wires[|trace.wires|].place == trace.built
            && after.built == trace.built + 1
  {
    TraceKept(layer, start, events);
    assert (events + [Queue(c, true, true)])[..|events|] == events;
  }

  lemma {:induction false} FakedTagFrom(d: Device, c: Command, urb: Urb, o: Outcome)
    requires WellFormed(c) && Carrying(d, c, urb) && AllGood(o)
    requires Opcode(c) == 0x12 || (c.bufflen > 0 && c.direction.ToDevice? && Opcode(c) != 0x03)
    ensures DecodeCsw(LastStage(Complete(d, urb, true, true, o.received), o).csw) == Csw(CSW_SIG, d.tag, 0, 0)
  {
    CbwStage(d, c, urb, true, true, o.received);
    CallbacksKeepTag(d, urb, true, true, o.received);
    CswRoundTrip(Csw(CSW_SIG, d.tag, 0, 0));
  }

  lemma {:induction false} LoneRunFrom(d: Device, c: Command, o: Outcome)
    requires Quiet(d) && WellFormed(c) && AllGood(o)
    ensures LoneRun(d, c, o) == LastStage(Complete(QueueCommand(d, c, true, true).0, CommandUrb(d), true, true, o.received), o)
  {
    QueueStage(d, c, true, true);
  }

  /** The status wrapper that data_callback fakes carries the tag after that of the command
      (`QueueOnWire`: the wrapper on the wire has the tag the device had before), so section 6.3
      would reject it; the driver does not look. */
  lemma {:induction false} FakedTagIsNext(d: Device, c: Command, o: Outcome)
    requires Quiet(d) && WellFormed(c) && AllGood(o)
    requires Opcode(c) == 0x12 || (c.bufflen > 0 && c.direction.ToDevice? && Opcode(c) != 0x03)
    ensures DecodeCsw(LoneRun(d, c, o).csw) == Csw(CSW_SIG, (d.tag + 1) % UINT_MODULUS, 0, 0)
    ensures (d.tag + 1) % UINT_MODULUS != d.tag
  {
    QueueStage(d, c, true, true);
    QueueOnWire(d, c, true, true);
    LoneRunFrom(d, c, o);
    FakedTagFrom(QueueCommand(d, c, true, true).0, c, CommandUrb(d), o);
  }

  /** A command wrapper whose completion finds a bad signature is dropped: nothing is called,
      nothing submitted. */
  lemma {:induction false} BadWrapperIsDropped(d: Device, urb: Urb, accepted: bool, received: seq<Byte>)
    requires Sized(d) && d.active.Some? && |received| == CSW_LEN && (urb.CbwUrb? || urb.SecUrb?)
    requires DecodeCbw(if urb.CbwUrb? then d.cbw else d.sec).signature != CBW_SIG
    ensures Complete(d, urb, true, accepted, received) == d.(inflight := d.inflight - {urb})
  {
  }

  /** The second wrapper buffer is used from the first data-in command on, save an INQUIRY,
      that gets as far as its data stage. */
  lemma {:induction false} CountSetExactly(d: Device, c: Command, urb: Urb, ok: bool, accepted: bool, received: seq<Byte>)
    requires |received| == CSW_LEN && Busy(d, c, urb)
    requires urb.CbwUrb? || urb.SecUrb? ==> WellFormed(c) && Carrying(d, c, urb)
    ensures Complete(d, urb, ok, accepted, received).count
         == if (urb.CbwUrb? || urb.SecUrb?) && ok && Opcode(c) != 0x12 && c.bufflen > 0 && c.direction.FromDevice? then 1 else d.count
  {
  }

  // ----- Disconnecting after any run

  /** How often killing `urb` completes its command. */
  function KillCompletions(urb: Urb): nat {
    match urb case CbwUrb => 1 case SecUrb => 0 case _ => 2
  }

  /** A disconnect may come between any two events: no URB is left exactly if sec_urb was not
      in flight; only the outstanding command is completed, by the callback of the URB that is
      killed; and no command is taken afterwards. */
  lemma {:induction false} DisconnectAfterAnyRun(r: Run, events: seq<Event>, id: nat, next: Command, memory: bool, accepted: bool)
    requires Probed(r) && WellFormed(next)
    ensures var d := RunAll(CAREFUL, r, events).device;
            && Sized(d) && OneKillable(d)
            && var e := Disconnect(d);
               && (e.inflight == {} <==> SecUrb !in d.inflight) && e.inflight <= {SecUrb}
               && (forall urb | d.inflight == {urb} :: d.active.Some?
                     && Times(e.done, id) == Times(d.done, id) + if id == d.active.value.id then KillCompletions(urb) else 0)
               && (d.inflight == {} ==> e.done == d.done)
               && !QueueCommand(e, next, memory, accepted).1 && QueueCommand(e, next, memory, accepted).0.done == e.done
  {
    RunAllInv(r, events);
    var q := RunAll(CAREFUL, r, events);
    assert q.outstanding.Some? ==> Phase(q.device, q.outstanding.value);
    if urb :| q.device.inflight == {urb} {
      DisconnectKills(q.device, q.outstanding.value, urb, id);
    }
  }

  lemma {:induction false} DisconnectKills(d: Device, c: Command, urb: Urb, id: nat)
    requires Busy(d, c, urb)
    ensures var e := Disconnect(d);
            && e.inflight == (if urb.SecUrb? then {SecUrb} else {})
            && Times(e.done, id) == Times(d.done, id) + if id == c.id then KillCompletions(urb) else 0
  {
    var calls := Disconnect(d).done[|d.done|..];
    assert Disconnect(d).done == d.done + calls;
    TimesOfMany(d.done, calls, c.id, id);
  }

  /** The case is real: sec_urb is in flight after some runs, and its callback then runs after
      the host has been released. */
  lemma SecUrbOutlivesDisconnect()
    ensures exists r :: Reachable(CAREFUL, r) && Sized(r.device) && OneKillable(r.device) && Disconnect(r.device).inflight == {SecUrb}
  {
    var r := FliesInSecond(CAREFUL);
    DisconnectKills(r.device, Plain(2, TEST, 0, NoData), SecUrb, 0);
  }

  // ----- Which callbacks find an active command

  ghost predicate Reachable(layer: Layer, r: Run) {
    exists start, events :: Probed(start) && RunAll(layer, start, events) == r
  }

  /** A URB is in flight whose callback will dereference NULL. */
  predicate Doomed(r: Run) {
    r.device.inflight != {} && r.device.active.None?
  }

  ghost predicate NeverDoomed(layer: Layer) {
    forall r | Reachable(layer, r) :: !Doomed(r)
  }

  lemma {:induction false} ReachStep(layer: Layer, r: Run, e: Event)
    requires Reachable(layer, r)
    ensures Reachable(layer, RunStep(layer, r, e))
  {
    var start, events :| Probed(start) && RunAll(layer, start, events) == r;
    assert (events + [e])[..|events|] == events;
    assert RunAll(layer, start, events + [e]) == RunStep(layer, r, e);
  }

  /** Queueing a well-formed command on an idle bus sends its wrapper. */
  lemma {:induction false} Sends(layer: Layer, r: Run, c: Command) returns (q: Run)
    requires Reachable(layer, r) && r.outstanding.None? && Quiet(r.device)
    requires WellFormed(c) && (layer.senses || Safe(c)) && Fresh(r, c.id) && Times(r.device.done, c.id) == 0
    ensures Reachable(layer, q) && q.outstanding == Some(c) && q.queued == r.queued + [c]
    ensures Carrying(q.device, c, CommandUrb(r.device)) && q.device.done == r.device.done && q.device.count == r.device.count
  {
    q := RunStep(layer, r, Queue(c, true, true));
    QueueStage(r.device, c, true, true);
    ReachStep(layer, r, Queue(c, true, true));
  }

  /** A status URB flies although no command is outstanding.  The next command's wrapper
      joins it, and the status stage takes that command for its own. */
  lemma {:induction false} DoomsTheNext(layer: Layer, r: Run, c: Command, next: Command)
    requires Reachable(layer, r) && r.outstanding.None? && Busy(r.device, c, CswUrb)
    requires next == Plain(next.id, TEST, 0, NoData) && Fresh(r, next.id)
    ensures !NeverDoomed(layer)
  {
    var csw := EncodeCsw(Csw(CSW_SIG, 0, 0, 0));
    CswRoundTrip(Csw(CSW_SIG, 0, 0, 0));
    var q := RunStep(layer, r, Queue(next, true, true));
    ReachStep(layer, r, Queue(next, true, true));
    assert q.device.inflight == {CswUrb, CommandUrb(r.device)} && q.device.active == Some(next);
    StatusDooms(layer, q, CommandUrb(r.device), csw);
  }

  /** A good status wrapper leaves the other URB in flight without an active command. */
  lemma {:induction false} StatusDooms(layer: Layer, r: Run, other: Urb, csw: seq<Byte>)
    requires Reachable(layer, r) && Sized(r.device) && r.device.active.Some?
    requires CswUrb in r.device.inflight && other in r.device.inflight && other != CswUrb
    requires |csw| == CSW_LEN && DecodeCsw(csw).signature == CSW_SIG
    ensures !NeverDoomed(layer)
  {
    ReachStep(layer, r, Completes(CswUrb, true, true, csw));
    assert other in RunStep(layer, r, Completes(CswUrb, true, true, csw)).device.inflight;
  }

  function Start(): (r: Run)
    ensures Probed(r)
  {
    Run(Device(true, 0, NoData, None, 1, 0, seq(CBW_LEN, _ => 0), seq(CBW_LEN, _ => 0), seq(CSW_LEN, _ => 0), {}, []),
        None, [], {}, {})
  }

  lemma StartReachable(layer: Layer)
    ensures Reachable(layer, Start())
  {
    assert RunAll(layer, Start(), []) == Start();
  }

  /** The wrapper of a command without data completes well: its status URB is submitted. */
  lemma {:induction false} SendsStatus(layer: Layer, r: Run, c: Command, urb: Urb) returns (q: Run)
    requires Reachable(layer, r) && WellFormed(c) && Carrying(r.device, c, urb) && c.bufflen == 0 && Opcode(c) != 0x12
    requires r.outstanding.None? || (r.outstanding == Some(c) && Times(r.device.done, c.id) == 0)
    ensures Reachable(layer, q) && q.queued == r.queued && Busy(q.device, c, CswUrb)
    ensures q.outstanding == if Opcode(c) == SENSE then None else r.outstanding
    ensures q.device.done == r.device.done + SenseDone(c)
  {
    var zeros: seq<Byte> := seq(CSW_LEN, _ => 0);
    q := RunStep(layer, r, Completes(urb, true, true, zeros));
    CbwStage(r.device, c, urb, true, true, zeros);
    TimesOfMany(r.device.done, SenseDone(c), c.id, c.id);
    ReachStep(layer, r, Completes(urb, true, true, zeros));
  }

  /** A settled command whose wrapper is still in flight dooms a next one. */
  lemma {:induction false} SettledInFlightDooms(layer: Layer, r: Run, c: Command, urb: Urb, id: nat)
    requires Reachable(layer, r) && WellFormed(c) && Carrying(r.device, c, urb) && c.bufflen == 0 && Opcode(c) != 0x12
    requires r.outstanding.None? || (r.outstanding == Some(c) && Opcode(c) == SENSE && Times(r.device.done, c.id) == 0)
    requires Fresh(r, id)
    ensures !NeverDoomed(layer)
  {
    var q := SendsStatus(layer, r, c, urb);
    DoomsTheNext(layer, q, c, Plain(id, TEST, 0, NoData));
  }

  /** A REQUEST SENSE is completed with its status URB in flight. */
  lemma {:induction false} SenseDooms(layer: Layer)
    requires layer.senses
    ensures !NeverDoomed(layer)
  {
    StartReachable(layer);
    var r := Sends(layer, Start(), Plain(1, SENSE, 0, NoData));
    SettledInFlightDooms(layer, r, Plain(1, SENSE, 0, NoData), CbwUrb, 2);
  }

  lemma {:induction false} ResetDooms(layer: Layer)
    requires layer.resetsBusy
    ensures !NeverDoomed(layer)
  {
    StartReachable(layer);
    var r := Sends(layer, Start(), Plain(1, TEST, 0, NoData));
    ReachStep(layer, r, ResetHost(true));
    assert Doomed(RunStep(layer, r, ResetHost(true)));
  }

  /** A data-in command waits, so that `count` becomes 1. */
  lemma {:induction false} Waits(layer: Layer, r: Run, c: Command) returns (q: Run)
    requires Reachable(layer, r) && r.outstanding == Some(c) && WellFormed(c) && Carrying(r.device, c, CbwUrb)
    requires c.bufflen > 0 && c.direction.FromDevice? && Stuck(c) && Times(r.device.done, c.id) == 0
    ensures Reachable(layer, q) && q.outstanding == Some(c) && q.queued == r.queued
    ensures Quiet(q.device) && q.device.count == 1 && q.device.done == r.device.done
  {
    var zeros: seq<Byte> := seq(CSW_LEN, _ => 0);
    CbwStage(r.device, c, CbwUrb, true, true, zeros);
    assert r.device.done + SenseDone(c) == r.device.done;
    ReachStep(layer, r, Completes(CbwUrb, true, true, zeros));
    q := RunStep(layer, r, Completes(CbwUrb, true, true, zeros));
  }

  /** The status stage completes the command, the next one is queued there, and line 745 then
      erases it from `active` with its wrapper in flight. */
  lemma {:induction false} OvertakenDooms(layer: Layer)
    requires layer.overtakes
    ensures !NeverDoomed(layer)
  {
    var c := Plain(1, TEST, 0, NoData);
    StartReachable(layer);
    var r1 := Sends(layer, Start(), c);
    var r2 := SendsStatus(layer, r1, c, CbwUrb);
    OvertakenStatus(layer, r2, c, Plain(2, TEST, 0, NoData));
  }

  lemma {:induction false} OvertakenStatus(layer: Layer, r: Run, c: Command, next: Command)
    requires layer.overtakes && Reachable(layer, r) && WellFormed(c) && Busy(r.device, c, CswUrb)
    requires r.outstanding == Some(c) && next == Plain(next.id, TEST, 0, NoData) && Fresh(r, next.id)
    ensures !NeverDoomed(layer)
  {
    var csw := EncodeCsw(Csw(CSW_SIG, 0, 0, 0));
    CswRoundTrip(Csw(CSW_SIG, 0, 0, 0));
    var e := Overtaken(CswUrb, true, true, csw, next, true, true);
    ReachStep(layer, r, e);
    OvertakenExactly(r.device, c, CswUrb, true, csw, next);
    TimesOfMany(r.device.done, [Done(c.id, DidOk)], c.id, c.id);
    var (d, rest) := FirstHalf(r.device, CswUrb, true, true, csw);
    var r1 := r.(device := d, outstanding := None);
    assert Settle(Mark(r.(device := d), false)) == r1 && Enabled(layer, r1, Queue(next, true, true));
    assert AfterQueue(r1, next, true, true).device == QueueCommand(d, next, true, true).0;
    assert Doomed(AfterOvertaken(layer, r, e));
  }

  /** An abort settles the command and leaves in flight what sec_urb carries. */
  lemma {:induction false} AbortsSecond(layer: Layer, r: Run, c: Command) returns (q: Run)
    requires Reachable(layer, r) && Sized(r.device) && r.outstanding == Some(c)
    requires r.device.inflight == {} || (r.device.inflight == {SecUrb} && layer.abortsSecond)
    ensures Reachable(layer, q) && q.outstanding.None? && q.queued == r.queued
    ensures q.device == r.device.(done := r.device.done + [Done(c.id, DidAbort)])
  {
    ReachStep(layer, r, AbortOutstanding);
    q := RunStep(layer, r, AbortOutstanding);
    TimesOfMany(r.device.done, [Done(c.id, DidAbort)], c.id, c.id);
  }

  /** A read waits and is aborted. */
  lemma {:induction false} ReadAborted(layer: Layer) returns (r: Run)
    ensures Reachable(layer, r) && r.outstanding.None? && Quiet(r.device) && r.device.count == 1
    ensures r.device.done == [Done(1, DidAbort)] && r.queued == [Plain(1, READ, 512, FromDevice)]
  {
    var read := Plain(1, READ, 512, FromDevice);
    StartReachable(layer);
    var r1 := Sends(layer, Start(), read);
    var r2 := Waits(layer, r1, read);
    r := AbortsSecond(layer, r2, read);
  }

  /** The next wrapper goes out in sec_urb. */
  lemma {:induction false} FliesInSecond(layer: Layer) returns (r: Run)
    ensures Reachable(layer, r) && r.outstanding == Some(Plain(2, TEST, 0, NoData))
    ensures Carrying(r.device, Plain(2, TEST, 0, NoData), SecUrb) && Fresh(r, 3)
  {
    var r1 := ReadAborted(layer);
    TimesOfMany([], [Done(1, DidAbort)], 1, 2);
    assert [] + [Done(1, DidAbort)] == r1.device.done;
    r := Sends(layer, r1, Plain(2, TEST, 0, NoData));
  }

  lemma {:induction false} AbortDooms(layer: Layer)
    requires layer.abortsSecond
    ensures !NeverDoomed(layer)
  {
    var r1 := FliesInSecond(layer);
    var r2 := AbortsSecond(layer, r1, Plain(2, TEST, 0, NoData));
    SettledInFlightDooms(layer, r2, Plain(2, TEST, 0, NoData), SecUrb, 3);
  }

  /** In every run every callback finds an active command if and only if the SCSI layer queues
      no REQUEST SENSE with a further stage, has no success in resetting a busy bus, does not
      abort with sec_urb in flight, and queues a command only after the callback that completed
      the last one has returned. */
  lemma {:induction false} CallbacksFindCommandExactly(layer: Layer)
    ensures NeverDoomed(layer) <==> layer == CAREFUL
  {
    if layer.senses {
      SenseDooms(layer);
    } else if layer.resetsBusy {
      ResetDooms(layer);
    } else if layer.abortsSecond {
      AbortDooms(layer);
    } else if layer.overtakes {
      OvertakenDooms(layer);
    } else {
      forall r | Reachable(layer, r)
        ensures !Doomed(r)
      {
        var start, events :| Probed(start) && RunAll(layer, start, events) == r;
        CompletionsOfEveryCommand(start, events, 0);
      }
    }
  }
}
