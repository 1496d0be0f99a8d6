/**
 * The USB Power Delivery sink policy of `src/usb_pd.c`: the port data the
 * policy callbacks share, the choice of a source capability, the Fixed
 * Request Data Object (section 6.4.2 of the USB Power Delivery
 * specification) built from it, the policy checks, and the power-ready flag
 * kept from the stack's notifications.
 *
 * Data objects are 32-bit words. A bit field `[hi..lo]` of a word `x` is
 * `(x / 2^lo) % 2^(hi - lo + 1)`, which is what the C bit-field members of
 * the Zephyr `union pd_fixed_supply_pdo_source` and `union pd_rdo` read.
 */
module UsbPd {
  import opened Common

  /** `PDO_MAX_DATA_OBJECTS`: a message carries at most seven data objects. */
  const PDO_MAX_DATA_OBJECTS: nat := 7

  /** `PDO_FIXED`: the value of bits 31..30 of a Fixed Supply PDO. */
  const PDO_FIXED: nat := 0

  /** `PD_CONVERT_MA_TO_FIXED_PDO_CURRENT(100)`: 100 mA in 10 mA units. */
  const DEFAULT_CURRENT: nat := 10

  /** `PD_CONVERT_FIXED_PDO_VOLTAGE_TO_MV`: the voltage field counts 50 mV units. */
  const MV_PER_VOLTAGE_UNIT: nat := 50

  // ---------------------------------------------------------------------
  // Source Fixed Supply PDO (section 6.4.1.2.2 of the USB PD specification)
  // ---------------------------------------------------------------------

  /** Bits 9..0: maximum current in 10 mA units. */
  function PdoMaxCurrent(pdo: U32): (c: nat)
    ensures c < 1024
  {
    pdo % 1024
  }

  /** Bits 19..10: voltage in 50 mV units. */
  function PdoVoltage(pdo: U32): (v: nat)
    ensures v < 1024
  {
    pdo / 1024 % 1024
  }

  /** Bits 31..30: the supply type, `PDO_FIXED` for a fixed supply. */
  function PdoType(pdo: U32): (t: nat)
    ensures t < 4
  {
    pdo / 0x4000_0000
  }

  /**
   * The voltage as `set_src_cap` computes it: the field times 50 mV, stored
   * in a `uint16_t`. The largest field value, 1023, gives 51150 mV, so the
   * store never truncates.
   */
  function VoltageMv(pdo: U32): (mv: nat)
    ensures mv == PdoVoltage(pdo) * MV_PER_VOLTAGE_UNIT
    ensures mv <= 51150
  {
    (PdoVoltage(pdo) * MV_PER_VOLTAGE_UNIT) % 0x1_0000
  }

  /** A capability the sink may ask for: fixed, with a voltage in (0, maxMv]. */
  predicate Acceptable(pdo: U32, maxMv: int)
  {
    PdoType(pdo) == PDO_FIXED && 0 < VoltageMv(pdo) <= maxMv
  }

  /**
   * The index `set_src_cap` settles on after looking at the first `k`
   * capabilities: the last acceptable one, or 0 when none is acceptable.
   */
  function LastAcceptable(pdos: seq<U32>, k: nat, maxMv: int): (r: nat)
    requires k <= |pdos|
    ensures r == 0 || r < k
    ensures r > 0 ==> Acceptable(pdos[r], maxMv)
    ensures forall j :: r < j < k ==> !Acceptable(pdos[j], maxMv)
    decreases k
  {
    if k == 0 then 0
    else if Acceptable(pdos[k - 1], maxMv) then k - 1
    else LastAcceptable(pdos, k - 1, maxMv)
  }

  /** When some capability is acceptable, the chosen one is, and it is the last such. */
  lemma {:induction false} SelectsHighestAcceptable(pdos: seq<U32>, k: nat, maxMv: int, i: nat)
    requires k <= |pdos| && i < k && Acceptable(pdos[i], maxMv)
    ensures Acceptable(pdos[LastAcceptable(pdos, k, maxMv)], maxMv)
    ensures i <= LastAcceptable(pdos, k, maxMv) < k
  {
  }

  // ---------------------------------------------------------------------
  // Fixed Request Data Object (section 6.4.2 of the USB PD specification)
  // ---------------------------------------------------------------------

  /** The fields of a Fixed RDO, low bits first. */
  datatype Rdo = Rdo(
    minOrMaxCurrent: nat,   // bits 9..0, 10 mA units
    operatingCurrent: nat,  // bits 19..10, 10 mA units
    reserved: nat,          // bits 22..20, shall be zero
    unchunked: bool,        // bit 23
    noUsbSuspend: bool,     // bit 24
    usbComm: bool,          // bit 25
    capMismatch: bool,      // bit 26
    giveback: bool,         // bit 27
    objectPos: nat)         // bits 31..28, 1-based

  /** Every field fits its width. */
  predicate RdoFits(r: Rdo)
  {
    r.minOrMaxCurrent < 1024 && r.operatingCurrent < 1024 && r.reserved < 8 && r.objectPos < 16
  }

  function Bit(b: bool): nat
  {
    if b then 1 else 0
  }

  /** The bits above bit 22, as a count of 2^23 units. */
  function RdoHigh(r: Rdo): nat
  {
    Bit(r.unchunked) + 2 * Bit(r.noUsbSuspend) + 4 * Bit(r.usbComm) + 8 * Bit(r.capMismatch)
    + 16 * Bit(r.giveback) + 32 * r.objectPos
  }

  /** The `raw_value` of a `union pd_rdo` whose fields are `r`. */
  function EncodeRdo(r: Rdo): (raw: U32)
    requires RdoFits(r)
  {
    r.minOrMaxCurrent + 0x400 * r.operatingCurrent + 0x10_0000 * r.reserved + 0x80_0000 * RdoHigh(r)
  }

  /** The fields a `union pd_rdo` reads from `raw`. */
  function DecodeRdo(raw: U32): (r: Rdo)
    ensures RdoFits(r)
  {
    Rdo(raw % 0x400, raw / 0x400 % 0x400, raw / 0x10_0000 % 8,
        raw / 0x80_0000 % 2 == 1, raw / 0x100_0000 % 2 == 1, raw / 0x200_0000 % 2 == 1,
        raw / 0x400_0000 % 2 == 1, raw / 0x800_0000 % 2 == 1, raw / 0x1000_0000 % 16)
  }

  /** A field of width `width` at `scale`, with `low` below it and `high` above it, reads back. */
  lemma FieldAt(x: int, scale: int, width: int, low: int, f: int, high: int)
    requires scale > 0 && width > 0 && 0 <= low < scale && 0 <= f < width && high >= 0
    requires x == low + scale * (f + width * high)
    ensures x / scale % width == f
  {
    DivModUnique(x, scale, f + width * high, low);
    DivModUnique(f + width * high, width, high, f);
  }

  /** The two current fields and the reserved bits of an encoded RDO read back. */
  lemma {:induction false} DecodeLowFields(r: Rdo, x: U32)
    requires RdoFits(r)
    requires x == r.minOrMaxCurrent + 0x400 * r.operatingCurrent + 0x10_0000 * r.reserved + 0x80_0000 * RdoHigh(r)
    ensures DecodeRdo(x).minOrMaxCurrent == r.minOrMaxCurrent
    ensures DecodeRdo(x).operatingCurrent == r.operatingCurrent
    ensures DecodeRdo(x).reserved == r.reserved
  {
    FieldAt(x, 1, 0x400, 0, r.minOrMaxCurrent, r.operatingCurrent + 0x400 * r.reserved + 0x2000 * RdoHigh(r));
    FieldAt(x, 0x400, 0x400, r.minOrMaxCurrent, r.operatingCurrent, r.reserved + 8 * RdoHigh(r));
    FieldAt(x, 0x10_0000, 8, r.minOrMaxCurrent + 0x400 * r.operatingCurrent, r.reserved, RdoHigh(r));
  }

  /** The flags and the object position of an encoded RDO read back. */
  lemma {:induction false} DecodeHighFields(below: int, u: nat, n: nat, c: nat, m: nat, g: nat, pos: nat, x: U32)
    requires 0 <= below < 0x80_0000 && u < 2 && n < 2 && c < 2 && m < 2 && g < 2 && pos < 16
    requires x == below + 0x80_0000 * (u + 2 * n + 4 * c + 8 * m + 16 * g + 32 * pos)
    ensures DecodeRdo(x).unchunked <==> u == 1
    ensures DecodeRdo(x).noUsbSuspend <==> n == 1
    ensures DecodeRdo(x).usbComm <==> c == 1
    ensures DecodeRdo(x).capMismatch <==> m == 1
    ensures DecodeRdo(x).giveback <==> g == 1
    ensures DecodeRdo(x).objectPos == pos
  {
    FieldAt(x, 0x80_0000, 2, below, u, n + 2 * c + 4 * m + 8 * g + 16 * pos);
    FieldAt(x, 0x100_0000, 2, below + 0x80_0000 * u, n, c + 2 * m + 4 * g + 8 * pos);
    FieldAt(x, 0x200_0000, 2, below + 0x80_0000 * (u + 2 * n), c, m + 2 * g + 4 * pos);
    FieldAt(x, 0x400_0000, 2, below + 0x80_0000 * (u + 2 * n + 4 * c), m, g + 2 * pos);
    FieldAt(x, 0x800_0000, 2, below + 0x80_0000 * (u + 2 * n + 4 * c + 8 * m), g, pos);
    FieldAt(x, 0x1000_0000, 16, below + 0x80_0000 * (u + 2 * n + 4 * c + 8 * m + 16 * g), pos, 0);
  }

  /** Decoding an encoded RDO gives back every field. */
  lemma DecodeEncodeRdo(r: Rdo)
    requires RdoFits(r)
    ensures DecodeRdo(EncodeRdo(r)) == r
  {
    var x := EncodeRdo(r);
    DecodeLowFields(r, x);
    var below := r.minOrMaxCurrent + 0x400 * r.operatingCurrent + 0x10_0000 * r.reserved;
    DecodeHighFields(below, Bit(r.unchunked), Bit(r.noUsbSuspend), Bit(r.usbComm), Bit(r.capMismatch),
                     Bit(r.giveback), r.objectPos, x);
  }

  /**
   * The fields `build_rdo` requests, given the stored capabilities, their
   * count and the selected index: the selected PDO's maximum current when
   * there are capabilities and it is fixed, otherwise 100 mA from the first
   * object; no USB suspend, every other flag clear, reserved bits zero.
   */
  function RequestFields(caps: seq<U32>, cnt: int, reqIdx: U8): (r: Rdo)
    requires |caps| == PDO_MAX_DATA_OBJECTS && reqIdx < PDO_MAX_DATA_OBJECTS
    ensures RdoFits(r)
  {
    var pdo := caps[reqIdx];
    if cnt > 0 && PdoType(pdo) == PDO_FIXED then
      Rdo(PdoMaxCurrent(pdo), PdoMaxCurrent(pdo), 0, false, true, false, false, false, reqIdx + 1)
    else
      Rdo(DEFAULT_CURRENT, DEFAULT_CURRENT, 0, false, true, false, false, false, 1)
  }

  /**
   * `build_rdo` as corrected: the same fields with the reserved bits cleared
   * (see `BuildRdoAsWritten` for the word the firmware actually sends).
   */
  function BuildRdo(caps: seq<U32>, cnt: int, reqIdx: U8): (w: U32)
    requires |caps| == PDO_MAX_DATA_OBJECTS && reqIdx < PDO_MAX_DATA_OBJECTS
    ensures DecodeRdo(w) == RequestFields(caps, cnt, reqIdx)
  {
    DecodeEncodeRdo(RequestFields(caps, cnt, reqIdx));
    EncodeRdo(RequestFields(caps, cnt, reqIdx))
  }

  /**
   * `build_rdo` as written: the union is never initialised, so bits 22..20
   * keep whatever `junk` the stack slot held.
   */
  function BuildRdoAsWritten(caps: seq<U32>, cnt: int, reqIdx: U8, junk: U32): (w: U32)
    requires |caps| == PDO_MAX_DATA_OBJECTS && reqIdx < PDO_MAX_DATA_OBJECTS
    ensures DecodeRdo(w) == RequestFields(caps, cnt, reqIdx).(reserved := junk / 0x10_0000 % 8)
    ensures junk / 0x10_0000 % 8 == 0 ==> w == BuildRdo(caps, cnt, reqIdx)
  {
    DecodeEncodeRdo(RequestFields(caps, cnt, reqIdx).(reserved := junk / 0x10_0000 % 8));
    EncodeRdo(RequestFields(caps, cnt, reqIdx).(reserved := junk / 0x10_0000 % 8))
  }

  /** A request for a fixed capability asks for its full current, at its 1-based position. */
  lemma RdoRequestsSelectedPdo(caps: seq<U32>, cnt: int, reqIdx: U8)
    requires |caps| == PDO_MAX_DATA_OBJECTS && reqIdx < PDO_MAX_DATA_OBJECTS
    requires cnt > 0 && PdoType(caps[reqIdx]) == PDO_FIXED
    ensures DecodeRdo(BuildRdo(caps, cnt, reqIdx)).minOrMaxCurrent == PdoMaxCurrent(caps[reqIdx])
    ensures DecodeRdo(BuildRdo(caps, cnt, reqIdx)).operatingCurrent == PdoMaxCurrent(caps[reqIdx])
    ensures DecodeRdo(BuildRdo(caps, cnt, reqIdx)).objectPos == reqIdx + 1
  {
    DecodeEncodeRdo(RequestFields(caps, cnt, reqIdx));
  }

  /** Without capabilities, or when the selected one is not fixed, 100 mA from object 1. */
  lemma RdoFallsBackToFirstObject(caps: seq<U32>, cnt: int, reqIdx: U8)
    requires |caps| == PDO_MAX_DATA_OBJECTS && reqIdx < PDO_MAX_DATA_OBJECTS
    requires cnt <= 0 || PdoType(caps[reqIdx]) != PDO_FIXED
    ensures DecodeRdo(BuildRdo(caps, cnt, reqIdx)).minOrMaxCurrent == 10
    ensures DecodeRdo(BuildRdo(caps, cnt, reqIdx)).operatingCurrent == 10
    ensures DecodeRdo(BuildRdo(caps, cnt, reqIdx)).objectPos == 1
  {
    DecodeEncodeRdo(RequestFields(caps, cnt, reqIdx));
  }

  /** Every request asks for no USB suspend and clears the other flags and the reserved bits. */
  lemma RdoFlagsFixed(caps: seq<U32>, cnt: int, reqIdx: U8)
    requires |caps| == PDO_MAX_DATA_OBJECTS && reqIdx < PDO_MAX_DATA_OBJECTS
    ensures DecodeRdo(BuildRdo(caps, cnt, reqIdx)).noUsbSuspend
    ensures !DecodeRdo(BuildRdo(caps, cnt, reqIdx)).unchunked
    ensures !DecodeRdo(BuildRdo(caps, cnt, reqIdx)).usbComm
    ensures !DecodeRdo(BuildRdo(caps, cnt, reqIdx)).capMismatch
    ensures !DecodeRdo(BuildRdo(caps, cnt, reqIdx)).giveback
    ensures DecodeRdo(BuildRdo(caps, cnt, reqIdx)).reserved == 0
    ensures 1 <= DecodeRdo(BuildRdo(caps, cnt, reqIdx)).objectPos <= PDO_MAX_DATA_OBJECTS
  {
    DecodeEncodeRdo(RequestFields(caps, cnt, reqIdx));
  }

  /**
   * The request as written carries the intended fields except for the
   * reserved bits, which are those of `junk`.
   */
  lemma RdoAsWrittenReserved(caps: seq<U32>, cnt: int, reqIdx: U8, junk: U32)
    requires |caps| == PDO_MAX_DATA_OBJECTS && reqIdx < PDO_MAX_DATA_OBJECTS
    ensures DecodeRdo(BuildRdoAsWritten(caps, cnt, reqIdx, junk))
         == DecodeRdo(BuildRdo(caps, cnt, reqIdx)).(reserved := junk / 0x10_0000 % 8)
  {
    var r := RequestFields(caps, cnt, reqIdx);
    DecodeEncodeRdo(r);
    DecodeEncodeRdo(r.(reserved := junk / 0x10_0000 % 8));
  }

  /** A stack slot with any of bits 22..20 set sends a request with reserved bits set. */
  lemma RdoAsWrittenLeaksReservedBits(caps: seq<U32>, cnt: int, reqIdx: U8, junk: U32)
    requires |caps| == PDO_MAX_DATA_OBJECTS && reqIdx < PDO_MAX_DATA_OBJECTS
    requires junk / 0x10_0000 % 8 != 0
    ensures DecodeRdo(BuildRdoAsWritten(caps, cnt, reqIdx, junk)).reserved != 0
    ensures DecodeRdo(BuildRdo(caps, cnt, reqIdx)).reserved == 0
  {
    RdoAsWrittenReserved(caps, cnt, reqIdx, junk);
    RdoFlagsFixed(caps, cnt, reqIdx);
  }

  // ---------------------------------------------------------------------
  // Policy checks and notifications
  // ---------------------------------------------------------------------

  /** `enum usbc_policy_check_t`; `OtherCheck` stands for the values the switch does not name. */
  datatype PolicyCheck = PowerRoleSwap | DataRoleSwapToDfp | DataRoleSwapToUfp | SnkAtDefaultLevel | OtherCheck

  /** `port0_policy_check`: which requests of the policy engine the sink accepts. */
  function CheckPolicy(check: PolicyCheck): (accept: bool)
    ensures accept <==> check == DataRoleSwapToUfp || check == SnkAtDefaultLevel
  {
    match check
    case PowerRoleSwap => false
    case DataRoleSwapToDfp => false
    case DataRoleSwapToUfp => true
    case SnkAtDefaultLevel => true
    case OtherCheck => false
  }

  /** `enum usbc_policy_notify_t`, the notifications `port0_notify` switches on. */
  datatype Notification =
    | ProtocolError | MsgDiscarded | MsgAcceptReceived | MsgRejectedReceived | MsgNotSupportedReceived
    | TransitionPs | PdConnected | NotPdConnected
    | PowerChange0A0 | PowerChangeDef | PowerChange1A5 | PowerChange3A0
    | DataRoleIsUfp | DataRoleIsDfp | PortPartnerNotResponsive | SnkTransitionToDefault
    | HardResetReceived | SenderResponseTimeout | SourceCapabilitiesReceived

  /** The notifications that decide the power-ready flag. */
  predicate Decisive(n: Notification)
  {
    n == TransitionPs || n == NotPdConnected
  }

  /** The power-ready flag after one notification. */
  function ReadyAfter(ready: bool, n: Notification): (r: bool)
    ensures Decisive(n) ==> (r <==> n == TransitionPs)
    ensures !Decisive(n) ==> r == ready
  {
    if n == TransitionPs then true
    else if n == NotPdConnected then false
    else ready
  }

  /** The flag after a run of notifications, in order. */
  function ReadyAfterAll(ready: bool, ns: seq<Notification>): bool
    decreases |ns|
  {
    if |ns| == 0 then ready else ReadyAfter(ReadyAfterAll(ready, ns[..|ns| - 1]), ns[|ns| - 1])
  }

  /**
   * After any run of notifications, power is ready exactly when the last
   * decisive one was `TRANSITION_PS`; with none, the flag is unchanged.
   */
  lemma {:induction false} ReadyTracksLastDecisive(ready: bool, ns: seq<Notification>)
    ensures (forall i :: 0 <= i < |ns| ==> !Decisive(ns[i])) ==> ReadyAfterAll(ready, ns) == ready
    ensures forall i :: 0 <= i < |ns| && Decisive(ns[i]) && (forall j :: i < j < |ns| ==> !Decisive(ns[j])) ==>
      (ReadyAfterAll(ready, ns) <==> ns[i] == TransitionPs)
  {
    if forall i :: 0 <= i < |ns| ==> !Decisive(ns[i]) {
      NoDecisiveKeepsReady(ready, ns);
    }
    forall i | 0 <= i < |ns| && Decisive(ns[i]) && (forall j :: i < j < |ns| ==> !Decisive(ns[j]))
      ensures ReadyAfterAll(ready, ns) <==> ns[i] == TransitionPs
    {
      LastDecisiveDecides(ready, ns, i);
    }
  }

  /** Notifications none of which is decisive leave the flag as it was. */
  lemma {:induction false} NoDecisiveKeepsReady(ready: bool, ns: seq<Notification>)
    requires forall i :: 0 <= i < |ns| ==> !Decisive(ns[i])
    ensures ReadyAfterAll(ready, ns) == ready
    decreases |ns|
  {
    if |ns| > 0 {
      NoDecisiveKeepsReady(ready, ns[..|ns| - 1]);
    }
  }

  /** The decisive notification at `i`, followed by none, sets the flag. */
  lemma {:induction false} LastDecisiveDecides(ready: bool, ns: seq<Notification>, i: nat)
    requires i < |ns| && Decisive(ns[i])
    requires forall j :: i < j < |ns| ==> !Decisive(ns[j])
    ensures ReadyAfterAll(ready, ns) <==> ns[i] == TransitionPs
    decreases |ns|
  {
    if i < |ns| - 1 {
      var init := ns[..|ns| - 1];
      assert init[i] == ns[i];
      LastDecisiveDecides(ready, init, i);
    }
  }

  // ---------------------------------------------------------------------
  // The port data shared by the callbacks
  // ---------------------------------------------------------------------

  /** `struct port0_data_t`, without the sink capabilities the policy engine reads unchanged. */
  class Port0Data {
    const srcCaps: array<U32>
    var srcCapCnt: int
    var reqIdx: U8
    var psReady: bool
    /** `CONFIG_PD_MAX_REQUESTED_VOLTAGE`, in mV. */
    const maxRequestedMv: int

    /** Room for the seven source objects, and an index inside it. */
    ghost predicate Valid()
      reads this
    {
      srcCaps.Length == PDO_MAX_DATA_OBJECTS && reqIdx < PDO_MAX_DATA_OBJECTS
    }

    /** The static initialiser: no capabilities, index 0, power not ready. */
    constructor (maxRequestedMv: int)
      ensures Valid() && fresh(srcCaps)
      ensures srcCaps[..] == seq(PDO_MAX_DATA_OBJECTS, _ => 0)
      ensures srcCapCnt == 0 && reqIdx == 0 && !psReady
      ensures this.maxRequestedMv == maxRequestedMv
    {
      srcCaps := new U32[PDO_MAX_DATA_OBJECTS](_ => 0);
      srcCapCnt := 0;
      reqIdx := 0;
      psReady := false;
      this.maxRequestedMv := maxRequestedMv;
    }

    /**
     * `port0_policy_cb_set_src_cap`: store at most seven offered
     * capabilities, leave the slots beyond them as they were, and select
     * the last acceptable one (index 0 when none is).
     */
    method SetSrcCap(pdos: seq<U32>)
      requires Valid()
      modifies this`srcCapCnt, this`reqIdx, srcCaps
      ensures Valid()
      ensures srcCapCnt == if |pdos| < PDO_MAX_DATA_OBJECTS then |pdos| else PDO_MAX_DATA_OBJECTS
      ensures srcCaps[..srcCapCnt] == pdos[..srcCapCnt]
      ensures srcCaps[srcCapCnt..] == old(srcCaps[..])[srcCapCnt..]
      ensures reqIdx == LastAcceptable(pdos, srcCapCnt, maxRequestedMv)
    {
      reqIdx := 0;
      var num := |pdos|;
      if num > PDO_MAX_DATA_OBJECTS {
        num := PDO_MAX_DATA_OBJECTS;
      }
      ghost var before := srcCaps[..];
      var i := 0;
      while i < num
        invariant 0 <= i <= num
        invariant srcCaps[..i] == pdos[..i]
        invariant forall j :: i <= j < srcCaps.Length ==> srcCaps[j] == before[j]
        invariant reqIdx == LastAcceptable(pdos, i, maxRequestedMv)
      {
        srcCaps[i] := pdos[i];
        var pdo := srcCaps[i];
        var vol := (PdoVoltage(pdo) * MV_PER_VOLTAGE_UNIT) % 0x1_0000;
        if PdoType(pdo) == PDO_FIXED && vol > 0 && vol <= maxRequestedMv {
          reqIdx := i;
        }
        i := i + 1;
      }
      srcCapCnt := num;
      assert srcCaps[num..] == before[num..] by {
        assert forall j :: 0 <= j < srcCaps.Length - num ==> srcCaps[num..][j] == srcCaps[num + j];
      }
    }

    /** `port0_policy_cb_get_rdo`: the request built from the stored capabilities, by the corrected `BuildRdo`. */
    method GetRdo() returns (rdo: U32)
      requires Valid()
      ensures rdo == BuildRdo(srcCaps[..], srcCapCnt, reqIdx)
      ensures DecodeRdo(rdo).reserved == 0 && DecodeRdo(rdo).noUsbSuspend
      ensures srcCapCnt > 0 && Acceptable(srcCaps[reqIdx], maxRequestedMv) ==>
        DecodeRdo(rdo).operatingCurrent == PdoMaxCurrent(srcCaps[reqIdx])
        && DecodeRdo(rdo).objectPos == reqIdx + 1
    {
      rdo := BuildRdo(srcCaps[..], srcCapCnt, reqIdx);
      RdoFlagsFixed(srcCaps[..], srcCapCnt, reqIdx);
      if srcCapCnt > 0 && PdoType(srcCaps[reqIdx]) == PDO_FIXED {
        RdoRequestsSelectedPdo(srcCaps[..], srcCapCnt, reqIdx);
      }
    }

    /** `port0_notify`: only the power-supply transition and the PD disconnect touch the flag. */
    method Notify(n: Notification)
      modifies this`psReady
      ensures psReady == ReadyAfter(old(psReady), n)
    {
      match n {
        case TransitionPs => psReady := true;
        case NotPdConnected => psReady := false;
        case _ =>
      }
    }

    /** `check_pd_ready`: whether the last decisive notification was a power-supply transition. */
    function PdReady(): (ready: bool)
      reads this
      ensures ready <==> psReady
    {
      psReady
    }
  }
}
