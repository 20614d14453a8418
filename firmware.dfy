/** The firmware's run-time behaviour: hid_set_config, which sets up the
    interrupt endpoint and registers the control callback, and exti4_isr, which
    on a button press sends one key-down report and one key-up report. The
    libopencm3 calls they make are modelled by their visible effect on a
    `Board`: every call is appended to `trace`, and the endpoint table and the
    callback list are updated as the calls ask. */
module Firmware {
  import opened UsbStd
  import opened HidLayout
  import opened Descriptors
  import opened Control

  /** EXTI4 as libopencm3 defines it: bit 4 of the EXTI line mask. */
  const EXTI4: nat := 0x10

  /** Iterations of the busy-wait loop in delay(). */
  const FLASH_DELAY: nat := 100000

  /** Usage 0x6F of the Keyboard/Keypad page: F20. */
  const KEY_F20: byte := 0x6F

  /** The handlers the firmware can register; there is one. */
  datatype Handler = HidControlRequestHandler

  datatype EndpointSetup = EndpointSetup(epType: byte, maxSize: u16, hasCallback: bool)

  datatype ControlCallback = ControlCallback(filterType: byte, typeMask: byte, handler: Handler)

  /** One call into the library, with the arguments it was given. */
  datatype Action =
    | ResetExti(lines: nat)
    | SetupEndpoint(address: byte, epType: byte, maxSize: u16, hasCallback: bool)
    | RegisterControlCallback(filterType: byte, typeMask: byte, handler: Handler)
    | WritePacket(address: byte, packet: seq<byte>)
    | BusyWait(nops: nat)

  // ----- What the firmware sends -----

  function Zeros(n: nat): (r: seq<byte>)
    ensures |r| == n && forall i :: 0 <= i < n ==> r[i] == 0
  {
    if n == 0 then [] else [0] + Zeros(n - 1)
  }

  /** An 8-byte boot-keyboard input report: the modifier byte, the reserved byte
      and six key slots, the unused ones zero. */
  function KeyReport(modifiers: byte, keys: seq<byte>): (r: seq<byte>)
    requires |keys| <= 6
    ensures |r| == 8 && r[0] == modifiers && r[1] == 0
    ensures forall i :: 0 <= i < 6 ==> r[2 + i] == if i < |keys| then keys[i] else 0
  {
    [modifiers, 0] + keys + Zeros(6 - |keys|)
  }

  /** F20 pressed, no modifier. */
  const PressReport: seq<byte> := KeyReport(0, [KEY_F20])
  /** Nothing pressed. */
  const ReleaseReport: seq<byte> := KeyReport(0, [])

  /** The library calls of hid_set_config, in order. */
  const SetConfigTrace: seq<Action> := [
    SetupEndpoint(0x81, USB_ENDPOINT_ATTR_INTERRUPT, 8, false),
    RegisterControlCallback(HidFilterType, HidFilterMask, HidControlRequestHandler)]

  const HidCallback: ControlCallback := ControlCallback(HidFilterType, HidFilterMask, HidControlRequestHandler)

  /** The endpoint table after hid_set_config. */
  function ConfigureEndpoints(m: map<byte, EndpointSetup>): map<byte, EndpointSetup> {
    m[0x81 := EndpointSetup(USB_ENDPOINT_ATTR_INTERRUPT, 8, false)]
  }

  /** The library calls of exti4_isr, in order. */
  const IsrTrace: seq<Action> := [
    ResetExti(EXTI4),
    WritePacket(0x81, PressReport),
    BusyWait(FLASH_DELAY),
    WritePacket(0x81, ReleaseReport),
    BusyWait(FLASH_DELAY)]

  class Board {
    var trace: seq<Action>
    var endpoints: map<byte, EndpointSetup>
    var callbacks: seq<ControlCallback>

    constructor ()
      ensures trace == [] && endpoints == map[] && callbacks == []
    {
      trace, endpoints, callbacks := [], map[], [];
    }

    /** exti_reset_request: clears the pending bits of the given EXTI lines. */
    method ExtiResetRequest(lines: nat)
      modifies this
      ensures trace == old(trace) + [ResetExti(lines)]
      ensures endpoints == old(endpoints) && callbacks == old(callbacks)
    {
      trace := trace + [ResetExti(lines)];
    }

    /** usbd_ep_setup: configures an endpoint. */
    method UsbdEpSetup(address: byte, epType: byte, maxSize: u16, hasCallback: bool)
      modifies this
      ensures trace == old(trace) + [SetupEndpoint(address, epType, maxSize, hasCallback)]
      ensures endpoints == old(endpoints)[address := EndpointSetup(epType, maxSize, hasCallback)]
      ensures callbacks == old(callbacks)
    {
      trace := trace + [SetupEndpoint(address, epType, maxSize, hasCallback)];
      endpoints := endpoints[address := EndpointSetup(epType, maxSize, hasCallback)];
    }

    /** usbd_register_control_callback: adds a callback for the requests whose
        bmRequestType AND typeMask equals filterType. */
    method UsbdRegisterControlCallback(filterType: byte, typeMask: byte, handler: Handler)
      modifies this
      ensures trace == old(trace) + [RegisterControlCallback(filterType, typeMask, handler)]
      ensures callbacks == old(callbacks) + [ControlCallback(filterType, typeMask, handler)]
      ensures endpoints == old(endpoints)
    {
      trace := trace + [RegisterControlCallback(filterType, typeMask, handler)];
      callbacks := callbacks + [ControlCallback(filterType, typeMask, handler)];
    }

    /** usbd_ep_write_packet: sends the first len bytes of buf on an endpoint. */
    method UsbdEpWritePacket(address: byte, buf: array<byte>, len: nat)
      requires len <= buf.Length
      modifies this
      ensures trace == old(trace) + [WritePacket(address, buf[..len])]
      ensures endpoints == old(endpoints) && callbacks == old(callbacks)
    {
      trace := trace + [WritePacket(address, buf[..len])];
    }

    /** delay(): FLASH_DELAY iterations of a one-nop loop, recorded as one wait
        of that many nops. */
    method Delay()
      modifies this
      ensures trace == old(trace) + [BusyWait(FLASH_DELAY)]
      ensures endpoints == old(endpoints) && callbacks == old(callbacks)
    {
      var i := 0;
      while i < FLASH_DELAY
        invariant 0 <= i <= FLASH_DELAY
      {
        i := i + 1;
      }
      trace := trace + [BusyWait(i)];
    }

    /** hid_set_config: wValue (the configuration number) is not used. */
    method HidSetConfig(wValue: u16)
      modifies this
      ensures trace == old(trace) + SetConfigTrace
      ensures endpoints == ConfigureEndpoints(old(endpoints))
      ensures callbacks == old(callbacks) + [HidCallback]
    {
      UsbdEpSetup(0x81, USB_ENDPOINT_ATTR_INTERRUPT, 8, false);
      UsbdRegisterControlCallback(Or(USB_REQ_TYPE_STANDARD, USB_REQ_TYPE_INTERFACE),
                                  Or(USB_REQ_TYPE_TYPE, USB_REQ_TYPE_RECIPIENT),
                                  HidControlRequestHandler);
    }

    /** exti4_isr: acknowledge the interrupt, then send F20 down and, after a
        delay, all keys up, from one 8-byte buffer changed in place. */
    method Exti4Isr()
      modifies this
      ensures trace == old(trace) + IsrTrace
      ensures endpoints == old(endpoints) && callbacks == old(callbacks)
    {
      ExtiResetRequest(EXTI4);
      var buf := new byte[8](_ => 0);
      buf[2] := 0x6f;
      assert buf[..8] == PressReport;
      UsbdEpWritePacket(0x81, buf, 8);
      Delay();
      buf[2] := 0;
      assert buf[..8] == ReleaseReport;
      UsbdEpWritePacket(0x81, buf, 8);
      Delay();
    }
  }

  // ----- What the host reads out of the reports -----

  /** Any 8-byte input report splits into the three Input fields of the
      descriptor: eight 1-bit values from byte 0, one byte, six bytes. */
  lemma InputFieldsOfReport(r: seq<byte>)
    requires |r| == 8
    ensures DecodeFields(r, KeyboardFields, Input, 0)
            == [FieldValues(r, 0, 1, 8), FieldValues(r, 8, 8, 1), FieldValues(r, 16, 8, 6)]
  {
    var fs := KeyboardFields;
    ReportSizes();
    assert DecodeFields(r, fs[4..], Input, 16) == [FieldValues(r, 16, 8, 6)];
    assert DecodeFields(r, fs[2..], Input, 16) == [FieldValues(r, 16, 8, 6)] by {
      assert fs[2..][1..] == fs[3..] && fs[3..][1..] == fs[4..];
    }
    assert fs[1..][1..] == fs[2..];
  }

  /** The modifier field reads the bits of byte 0. */
  lemma ModifierField(r: seq<byte>)
    requires |r| == 8
    ensures var vs := FieldValues(r, 0, 1, 8);
            forall i :: 0 <= i < 8 ==> vs[i] == Bit(r[0], i)
  {
    forall i | 0 <= i < 8 ensures FieldValues(r, 0, 1, 8)[i] == Bit(r[0], i) {
      BitAt(r, 0, i, 0 + 1 * i);
    }
  }

  /** The reserved field reads byte 1. */
  lemma ReservedField(r: seq<byte>)
    requires |r| == 8
    ensures FieldValues(r, 8, 8, 1) == [r[1] as nat]
  {
    ByteAt(r, 1, 8 + 8 * 0);
  }

  /** The key-array field reads bytes 2 to 7. */
  lemma KeyArrayField(r: seq<byte>)
    requires |r| == 8
    ensures var vs := FieldValues(r, 16, 8, 6);
            forall i :: 0 <= i < 6 ==> vs[i] == r[2 + i] as nat
  {
    forall i | 0 <= i < 6 ensures FieldValues(r, 16, 8, 6)[i] == r[2 + i] as nat {
      ByteAt(r, 2 + i, 16 + 8 * i);
    }
  }

  /** A host that parses the report descriptor reads any 8-byte input report
      as the eight bits of byte 0, byte 1, and bytes 2 to 7. */
  lemma DecodeReport(r: seq<byte>)
    requires |r| == 8
    ensures var d := DecodeFields(r, KeyboardFields, Input, 0);
            |d| == 3 && |d[0]| == 8 && d[1] == [r[1] as nat] && |d[2]| == 6 &&
            (forall i :: 0 <= i < 8 ==> d[0][i] == Bit(r[0], i)) &&
            (forall i :: 0 <= i < 6 ==> d[2][i] == r[2 + i] as nat)
  {
    InputFieldsOfReport(r);
    ModifierField(r);
    ReservedField(r);
    KeyArrayField(r);
  }

  /** A key report reads back as its modifier bits, the constant byte and the
      key slots: the keys given, then empty slots. */
  lemma DecodeKeyReport(m: byte, keys: seq<byte>)
    requires |keys| <= 6
    ensures var d := DecodeFields(KeyReport(m, keys), KeyboardFields, Input, 0);
            |d| == 3 && |d[0]| == 8 && d[1] == [0] && |d[2]| == 6 &&
            (forall i :: 0 <= i < 8 ==> d[0][i] == Bit(m, i)) &&
            (forall i :: 0 <= i < 6 ==> d[2][i] == if i < |keys| then keys[i] as nat else 0)
  {
    DecodeReport(KeyReport(m, keys));
  }

  /** Every bit of a zero byte is clear. */
  lemma ZeroBits()
    ensures forall i :: 0 <= i < 8 ==> Bit(0, i) == 0
  {
    forall i | 0 <= i < 8 ensures Bit(0, i) == 0 {
      ShrSmall(0, i, Pow2(i));
    }
  }

  /** The key-down report carries F20 alone, no modifier, in the key-array
      field, and F20 lies within that field's usage and logical ranges. */
  lemma PressReportIsF20()
    ensures DecodeFields(PressReport, KeyboardFields, Input, 0)
            == [[0, 0, 0, 0, 0, 0, 0, 0], [0], [KEY_F20 as nat, 0, 0, 0, 0, 0]]
    ensures var keyArray := KeyboardFields[4];
            keyArray.kind == Input && keyArray.usagePage == 7 &&
            keyArray.usageMin.Some? && keyArray.usageMax.Some? &&
            keyArray.usageMin.value <= KEY_F20 as nat <= keyArray.usageMax.value &&
            keyArray.logicalMin <= KEY_F20 as nat <= keyArray.logicalMax
  {
    DecodeKeyReport(0, [KEY_F20]);
    ZeroBits();
    var d := DecodeFields(PressReport, KeyboardFields, Input, 0);
    assert d[0] == [0, 0, 0, 0, 0, 0, 0, 0];
    assert d[2] == [KEY_F20 as nat, 0, 0, 0, 0, 0];
  }

  /** The key-up report has no modifier and every key slot empty (usage 0). */
  lemma ReleaseReportIsEmpty()
    ensures DecodeFields(ReleaseReport, KeyboardFields, Input, 0)
            == [[0, 0, 0, 0, 0, 0, 0, 0], [0], [0, 0, 0, 0, 0, 0]]
  {
    DecodeKeyReport(0, []);
    ZeroBits();
    var d := DecodeFields(ReleaseReport, KeyboardFields, Input, 0);
    assert d[0] == [0, 0, 0, 0, 0, 0, 0, 0];
    assert d[2] == [0, 0, 0, 0, 0, 0];
  }

  /** The two reports differ in the first key slot only. */
  lemma PressAndReleaseDiffer()
    ensures |PressReport| == |ReleaseReport| == HidEndpoint.wMaxPacketSize as int
    ensures forall i :: 0 <= i < 8 ==> (PressReport[i] != ReleaseReport[i] <==> i == 2)
  {
  }

  // ----- What the firmware writes to the endpoints -----

  /** The packets written to an endpoint, in order. */
  function PacketsTo(t: seq<Action>, address: byte): (r: seq<seq<byte>>)
    ensures |r| <= |t|
  {
    if t == [] then []
    else if t[0].WritePacket? && t[0].address == address then [t[0].packet] + PacketsTo(t[1..], address)
    else PacketsTo(t[1..], address)
  }

  lemma {:induction false} PacketsToAppend(a: seq<Action>, b: seq<Action>, address: byte)
    ensures PacketsTo(a + b, address) == PacketsTo(a, address) + PacketsTo(b, address)
  {
    if a == [] {
      assert a + b == b;
    } else {
      assert (a + b)[0] == a[0] && (a + b)[1..] == a[1..] + b;
      PacketsToAppend(a[1..], b, address);
    }
  }

  /** What the interrupt handler writes to each endpoint. */
  lemma IsrPacketsTo(a: byte)
    ensures PacketsTo(IsrTrace, a) == if a == 0x81 then [PressReport, ReleaseReport] else []
  {
    var t := IsrTrace;
    assert t[1..][1..] == t[2..] && t[2..][1..] == t[3..] && t[3..][1..] == t[4..] && t[4..][1..] == [];
    assert PacketsTo(t[4..], a) == [];
    assert PacketsTo(t[3..], a) == if a == 0x81 then [ReleaseReport] else [];
    assert PacketsTo(t[2..], a) == PacketsTo(t[3..], a);
    assert PacketsTo(t[1..], a) == if a == 0x81 then [PressReport, ReleaseReport] else [];
  }

  /** The interrupt handler acknowledges EXTI4 before anything else and never
      again; it writes exactly the key-down and then the key-up report, each one
      full packet long, to the HID interrupt endpoint and to no other. */
  lemma IsrSendsPressThenRelease()
    ensures IsrTrace[0] == ResetExti(EXTI4)
    ensures forall i :: 0 < i < |IsrTrace| ==> !IsrTrace[i].ResetExti?
    ensures PacketsTo(IsrTrace, HidEndpoint.bEndpointAddress) == [PressReport, ReleaseReport]
    ensures forall a :: a != HidEndpoint.bEndpointAddress ==> PacketsTo(IsrTrace, a) == []
    ensures forall i :: 0 <= i < |IsrTrace| && IsrTrace[i].WritePacket? ==>
              |IsrTrace[i].packet| == HidEndpoint.wMaxPacketSize as int
  {
    IsrPacketsTo(HidEndpoint.bEndpointAddress);
    forall a | a != HidEndpoint.bEndpointAddress ensures PacketsTo(IsrTrace, a) == [] {
      IsrPacketsTo(a);
    }
  }

  /** Each run of the handler adds exactly its two reports to the packets
      written to the endpoint. */
  lemma IsrAppendsReports(before: seq<Action>)
    ensures PacketsTo(before + IsrTrace, HidEndpoint.bEndpointAddress)
            == PacketsTo(before, HidEndpoint.bEndpointAddress) + [PressReport, ReleaseReport]
  {
    PacketsToAppend(before, IsrTrace, HidEndpoint.bEndpointAddress);
    IsrSendsPressThenRelease();
  }

  // ----- hid_set_config against the descriptors -----

  /** hid_set_config configures the endpoint exactly as the endpoint descriptor
      announces it, and the callback it registers sees every request for the
      report descriptor and only standard requests to an interface. */
  lemma SetConfigMatchesDescriptors()
    ensures SetConfigTrace[0] == SetupEndpoint(HidEndpoint.bEndpointAddress, HidEndpoint.bmAttributes,
                                               HidEndpoint.wMaxPacketSize, false)
    ensures SetConfigTrace[1] == RegisterControlCallback(HidCallback.filterType, HidCallback.typeMask, HidCallback.handler)
    ensures forall req :: IsReportDescriptorFetch(req) ==>
              PassesFilter(req.bmRequestType, HidCallback.filterType, HidCallback.typeMask)
    ensures forall t: byte :: PassesFilter(t, HidCallback.filterType, HidCallback.typeMask) ==>
              KindOf(t) == Standard && RecipientOf(t) == Interface
  {
    forall req | IsReportDescriptorFetch(req)
      ensures PassesFilter(req.bmRequestType, HidCallback.filterType, HidCallback.typeMask)
    {
      FilterAdmitsStandardInterface(req);
    }
    forall t: byte | PassesFilter(t, HidCallback.filterType, HidCallback.typeMask)
      ensures KindOf(t) == Standard && RecipientOf(t) == Interface
    {
      FilterAdmitsStandardInterface(SetupData(t, 0, 0, 0, 0));
    }
  }

  /** Configuring again leaves the endpoint table as it was, and only endpoint
      0x81 is touched. */
  lemma ConfigureEndpointsIdempotent(m: map<byte, EndpointSetup>)
    ensures ConfigureEndpoints(ConfigureEndpoints(m)) == ConfigureEndpoints(m)
    ensures forall a :: a in m && a != HidEndpoint.bEndpointAddress ==> ConfigureEndpoints(m)[a] == m[a]
    ensures ConfigureEndpoints(m)[HidEndpoint.bEndpointAddress]
            == EndpointSetup(HidEndpoint.bmAttributes, HidEndpoint.wMaxPacketSize, false)
  {
  }
}
