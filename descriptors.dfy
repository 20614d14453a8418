/** The constant descriptor tables of mightymute.c: the device, configuration,
    interface, HID class and endpoint descriptors, the keyboard report
    descriptor, and the checks that tie them together. */
module Descriptors {
  import opened UsbStd
  import opened HidItems
  import opened HidLayout

  // ----- Device descriptor (USB 2.0, section 9.6.1) -----

  datatype DeviceDescriptor = DeviceDescriptor(
    bLength: byte,
    bDescriptorType: byte,
    bcdUSB: u16,
    bDeviceClass: byte,
    bDeviceSubClass: byte,
    bDeviceProtocol: byte,
    bMaxPacketSize0: byte,
    idVendor: u16,
    idProduct: u16,
    bcdDevice: u16,
    iManufacturer: byte,
    iProduct: byte,
    iSerialNumber: byte,
    bNumConfigurations: byte)

  const DevDescr: DeviceDescriptor := DeviceDescriptor(
    bLength := USB_DT_DEVICE_SIZE,
    bDescriptorType := USB_DT_DEVICE,
    bcdUSB := 0x0200,
    bDeviceClass := 0,
    bDeviceSubClass := 0,
    bDeviceProtocol := 0,
    bMaxPacketSize0 := 64,
    idVendor := 0x0483,
    idProduct := 0x5710,
    bcdDevice := 0x0200,
    iManufacturer := 1,
    iProduct := 2,
    iSerialNumber := 3,
    bNumConfigurations := 1)

  function EncodeDevice(d: DeviceDescriptor): (r: seq<byte>)
    ensures |r| == USB_DT_DEVICE_SIZE as int
  {
    [d.bLength, d.bDescriptorType] + LittleEndian(d.bcdUSB)
      + [d.bDeviceClass, d.bDeviceSubClass, d.bDeviceProtocol, d.bMaxPacketSize0]
      + LittleEndian(d.idVendor) + LittleEndian(d.idProduct) + LittleEndian(d.bcdDevice)
      + [d.iManufacturer, d.iProduct, d.iSerialNumber, d.bNumConfigurations]
  }

  function DecodeDevice(s: seq<byte>): Option<DeviceDescriptor> {
    if |s| != USB_DT_DEVICE_SIZE as int then None
    else Some(DeviceDescriptor(s[0], s[1], FromLittleEndian(s[2], s[3]), s[4], s[5], s[6], s[7],
                               FromLittleEndian(s[8], s[9]), FromLittleEndian(s[10], s[11]),
                               FromLittleEndian(s[12], s[13]), s[14], s[15], s[16], s[17]))
  }

  lemma DeviceRoundTrip(d: DeviceDescriptor)
    ensures DecodeDevice(EncodeDevice(d)) == Some(d)
  {
    LittleEndianRoundTrip(d.bcdUSB);
    LittleEndianRoundTrip(d.idVendor);
    LittleEndianRoundTrip(d.idProduct);
    LittleEndianRoundTrip(d.bcdDevice);
  }

  // ----- Endpoint descriptor (USB 2.0, section 9.6.6) -----

  datatype EndpointDescriptor = EndpointDescriptor(
    bLength: byte,
    bDescriptorType: byte,
    bEndpointAddress: byte,
    bmAttributes: byte,
    wMaxPacketSize: u16,
    bInterval: byte)

  /** The single interrupt IN endpoint, number 1. */
  const HidEndpoint: EndpointDescriptor := EndpointDescriptor(
    bLength := USB_DT_ENDPOINT_SIZE,
    bDescriptorType := USB_DT_ENDPOINT,
    bEndpointAddress := 0x81,
    bmAttributes := USB_ENDPOINT_ATTR_INTERRUPT,
    wMaxPacketSize := 8,
    bInterval := 0x08)

  function EncodeEndpoint(e: EndpointDescriptor): (r: seq<byte>)
    ensures |r| == USB_DT_ENDPOINT_SIZE as int
  {
    [e.bLength, e.bDescriptorType, e.bEndpointAddress, e.bmAttributes]
      + LittleEndian(e.wMaxPacketSize) + [e.bInterval]
  }

  function DecodeEndpoint(s: seq<byte>): Option<EndpointDescriptor> {
    if |s| != USB_DT_ENDPOINT_SIZE as int then None
    else Some(EndpointDescriptor(s[0], s[1], s[2], s[3], FromLittleEndian(s[4], s[5]), s[6]))
  }

  lemma EndpointRoundTrip(e: EndpointDescriptor)
    ensures DecodeEndpoint(EncodeEndpoint(e)) == Some(e)
  {
    LittleEndianRoundTrip(e.wMaxPacketSize);
  }

  /** Decoding accepts exactly the 7-byte strings, and those encode back unchanged. */
  lemma EndpointDecodeEncode(s: seq<byte>)
    ensures DecodeEndpoint(s).Some? <==> |s| == USB_DT_ENDPOINT_SIZE as int
    ensures DecodeEndpoint(s).Some? ==> EncodeEndpoint(DecodeEndpoint(s).value) == s
  {
    if |s| == USB_DT_ENDPOINT_SIZE as int {
      var e := DecodeEndpoint(s).value;
      assert LittleEndian(e.wMaxPacketSize) == s[4..6];
      assert s == s[..4] + s[4..6] + s[6..];
    }
  }

  /** Direction bit 7 of bEndpointAddress set means IN (device to host). */
  predicate IsIn(address: byte) { address as int >= 0x80 }
  function EndpointNumber(address: byte): nat { address as int % 16 }
  function TransferType(attributes: byte): nat { attributes as int % 4 }

  // ----- The keyboard report descriptor (HID 1.11, section 6.2.2) -----

  /** The 63 bytes of hid_report_descriptor: the header, the modifier and reserved
      bytes, the LED byte, and the key array with the end of the collection. */
  const ReportDescriptor: seq<byte> :=
    ([0x05, 0x01, 0x09, 0x06, 0xa1, 0x01]
      + [0x95, 0x08, 0x75, 0x01, 0x15, 0x00, 0x25, 0x01])
    + ([0x05, 0x07, 0x19, 0xe0, 0x29, 0xe7, 0x81, 0x02]
      + [0x95, 0x01, 0x75, 0x08, 0x81, 0x01])
    + ([0x95, 0x05, 0x75, 0x01, 0x05, 0x08]
      + [0x19, 0x01, 0x29, 0x05, 0x91, 0x02]
      + [0x95, 0x01, 0x75, 0x03, 0x91, 0x01])
    + ([0x95, 0x06, 0x75, 0x08, 0x15, 0x00, 0x25, 0xff]
      + [0x05, 0x07, 0x19, 0x00, 0x29, 0xff, 0x81, 0x00]
      + [0xc0])

  // The same descriptor as items, group by group.

  const ApplicationCollection: seq<Item> := [
    Item(Global, 0, [0x01]),    // Usage Page (Generic Desktop)
    Item(Local, 0, [0x06]),     // Usage (Keyboard)
    Item(Main, 10, [0x01])]     // Collection (Application)

  const ModifierGlobals: seq<Item> := [
    Item(Global, 9, [0x08]),    // Report Count (8)
    Item(Global, 7, [0x01]),    // Report Size (1)
    Item(Global, 1, [0x00]),    // Logical Minimum (0)
    Item(Global, 2, [0x01])]    // Logical Maximum (1)

  const ModifierInput: seq<Item> := [
    Item(Global, 0, [0x07]),    // Usage Page (Keyboard/Keypad)
    Item(Local, 1, [0xe0]),     // Usage Minimum (LeftControl)
    Item(Local, 2, [0xe7]),     // Usage Maximum (Right GUI)
    Item(Main, 8, [0x02])]      // Input (Data, Variable, Absolute)

  const ReservedInput: seq<Item> := [
    Item(Global, 9, [0x01]),    // Report Count (1)
    Item(Global, 7, [0x08]),    // Report Size (8)
    Item(Main, 8, [0x01])]      // Input (Constant)

  const LedGlobals: seq<Item> := [
    Item(Global, 9, [0x05]),    // Report Count (5)
    Item(Global, 7, [0x01]),    // Report Size (1)
    Item(Global, 0, [0x08])]    // Usage Page (LEDs)

  const LedOutput: seq<Item> := [
    Item(Local, 1, [0x01]),     // Usage Minimum (Num Lock)
    Item(Local, 2, [0x05]),     // Usage Maximum (Kana)
    Item(Main, 9, [0x02])]      // Output (Data, Variable, Absolute)

  const LedPadding: seq<Item> := [
    Item(Global, 9, [0x01]),    // Report Count (1)
    Item(Global, 7, [0x03]),    // Report Size (3)
    Item(Main, 9, [0x01])]      // Output (Constant)

  const KeyGlobals: seq<Item> := [
    Item(Global, 9, [0x06]),    // Report Count (6)
    Item(Global, 7, [0x08]),    // Report Size (8)
    Item(Global, 1, [0x00]),    // Logical Minimum (0)
    Item(Global, 2, [0xff])]    // Logical Maximum (0xff, read unsigned)

  const KeyInput: seq<Item> := [
    Item(Global, 0, [0x07]),    // Usage Page (Keyboard/Keypad)
    Item(Local, 1, [0x00]),     // Usage Minimum (0)
    Item(Local, 2, [0xff]),     // Usage Maximum (0xff)
    Item(Main, 8, [0x00])]      // Input (Data, Array, Absolute)

  const EndCollection: seq<Item> := [
    Item(Main, 12, [])]         // End Collection

  /** The application collection and the globals of the modifier bits. */
  const HeaderItems: seq<Item> := ApplicationCollection + ModifierGlobals

  /** The modifier byte and the reserved byte. */
  const ModifierBytes: seq<Item> := ModifierInput + ReservedInput

  /** The five LED bits and their padding. */
  const LedByte: seq<Item> := LedGlobals + LedOutput + LedPadding

  /** The six key codes and the end of the collection. */
  const KeyArrayItems: seq<Item> := KeyGlobals + KeyInput + EndCollection

  const KeyboardItems: seq<Item> := HeaderItems + ModifierBytes + LedByte + KeyArrayItems

  /** The five fields of the boot-keyboard report, in declaration order. */
  const KeyboardFields: seq<Field> := [
    Field(Input, 2, 1, 8, 7, 0, 1, [], Some(0xe0), Some(0xe7)),   // modifier bits LeftControl .. Right GUI
    Field(Input, 1, 8, 1, 7, 0, 1, [], None, None),               // reserved constant byte
    Field(Output, 2, 1, 5, 8, 0, 1, [], Some(1), Some(5)),        // five LEDs, Num Lock .. Kana
    Field(Output, 1, 3, 1, 8, 0, 1, [], None, None),              // three bits of LED padding
    Field(Input, 0, 8, 6, 7, 0, 0xff, [], Some(0), Some(0xff))]   // six key codes, usages 0 .. 0xff

  /** A walker state between two groups: no Local item pending, no underflow. */
  function Settled(usagePage: nat, logicalMin: nat, logicalMax: nat, reportSize: nat,
                   reportCount: nat, depth: nat, fields: seq<Field>): Walker
  {
    Walker(usagePage, logicalMin, logicalMax, reportSize, reportCount, [], None, None, depth, false, fields)
  }

  // Two lemmas per group: its bytes and well-formedness, and its effect on the walker.

  lemma ApplicationCollectionBytes()
    ensures AllWellFormed(ApplicationCollection) && Encode(ApplicationCollection) == [0x05, 0x01, 0x09, 0x06, 0xa1, 0x01]
  {
  }

  lemma ApplicationCollectionWalk()
    ensures Walk(ApplicationCollection, Start) == Settled(1, 0, 0, 0, 0, 1, [])
  {
  }

  lemma ModifierGlobalsBytes()
    ensures AllWellFormed(ModifierGlobals) && Encode(ModifierGlobals) == [0x95, 0x08, 0x75, 0x01, 0x15, 0x00, 0x25, 0x01]
  {
  }

  lemma ModifierGlobalsWalk()
    ensures Walk(ModifierGlobals, Settled(1, 0, 0, 0, 0, 1, [])) == Settled(1, 0, 1, 1, 8, 1, [])
  {
  }

  lemma ModifierInputBytes()
    ensures AllWellFormed(ModifierInput) && Encode(ModifierInput) == [0x05, 0x07, 0x19, 0xe0, 0x29, 0xe7, 0x81, 0x02]
  {
  }

  lemma ModifierInputWalk()
    ensures Walk(ModifierInput, Settled(1, 0, 1, 1, 8, 1, [])) == Settled(7, 0, 1, 1, 8, 1, KeyboardFields[0..1])
  {
  }

  lemma ReservedInputBytes()
    ensures AllWellFormed(ReservedInput) && Encode(ReservedInput) == [0x95, 0x01, 0x75, 0x08, 0x81, 0x01]
  {
  }

  lemma ReservedInputWalk()
    ensures Walk(ReservedInput, Settled(7, 0, 1, 1, 8, 1, [])) == Settled(7, 0, 1, 8, 1, 1, KeyboardFields[1..2])
  {
  }

  lemma LedGlobalsBytes()
    ensures AllWellFormed(LedGlobals) && Encode(LedGlobals) == [0x95, 0x05, 0x75, 0x01, 0x05, 0x08]
  {
  }

  lemma LedGlobalsWalk()
    ensures Walk(LedGlobals, Settled(7, 0, 1, 8, 1, 1, [])) == Settled(8, 0, 1, 1, 5, 1, [])
  {
  }

  lemma LedOutputBytes()
    ensures AllWellFormed(LedOutput) && Encode(LedOutput) == [0x19, 0x01, 0x29, 0x05, 0x91, 0x02]
  {
  }

  lemma LedOutputWalk()
    ensures Walk(LedOutput, Settled(8, 0, 1, 1, 5, 1, [])) == Settled(8, 0, 1, 1, 5, 1, KeyboardFields[2..3])
  {
  }

  lemma LedPaddingBytes()
    ensures AllWellFormed(LedPadding) && Encode(LedPadding) == [0x95, 0x01, 0x75, 0x03, 0x91, 0x01]
  {
  }

  lemma LedPaddingWalk()
    ensures Walk(LedPadding, Settled(8, 0, 1, 1, 5, 1, [])) == Settled(8, 0, 1, 3, 1, 1, KeyboardFields[3..4])
  {
  }

  lemma KeyGlobalsBytes()
    ensures AllWellFormed(KeyGlobals) && Encode(KeyGlobals) == [0x95, 0x06, 0x75, 0x08, 0x15, 0x00, 0x25, 0xff]
  {
  }

  lemma KeyGlobalsWalk()
    ensures Walk(KeyGlobals, Settled(8, 0, 1, 3, 1, 1, [])) == Settled(8, 0, 0xff, 8, 6, 1, [])
  {
  }

  lemma KeyInputBytes()
    ensures AllWellFormed(KeyInput) && Encode(KeyInput) == [0x05, 0x07, 0x19, 0x00, 0x29, 0xff, 0x81, 0x00]
  {
  }

  lemma KeyInputWalk()
    ensures Walk(KeyInput, Settled(8, 0, 0xff, 8, 6, 1, [])) == Settled(7, 0, 0xff, 8, 6, 1, KeyboardFields[4..5])
  {
  }

  lemma EndCollectionBytes()
    ensures AllWellFormed(EndCollection) && Encode(EndCollection) == [0xc0]
  {
  }

  lemma EndCollectionWalk()
    ensures Walk(EndCollection, Settled(7, 0, 0xff, 8, 6, 1, [])) == Settled(7, 0, 0xff, 8, 6, 0, [])
  {
  }

  lemma AllWellFormedAppend(a: seq<Item>, b: seq<Item>)
    requires AllWellFormed(a) && AllWellFormed(b)
    ensures AllWellFormed(a + b)
  {
    forall i | 0 <= i < |a + b| ensures WellFormed((a + b)[i]) {
      if i >= |a| { assert (a + b)[i] == b[i - |a|]; }
    }
  }

  /** Walking two lists in turn, when the second starts from a state with fields. */
  lemma WalkThen(a: seq<Item>, b: seq<Item>, w: Walker, x: Walker, y: Walker)
    requires Walk(a, w) == x && Walk(b, Reset(x)) == y
    ensures Walk(a + b, w) == After(x.fields, y)
  {
    WalkAppend(a, b, w);
    WalkKeepsFields(b, x);
  }

  lemma HeaderItemsEncoding()
    ensures AllWellFormed(HeaderItems) && Encode(HeaderItems) == [0x05, 0x01, 0x09, 0x06, 0xa1, 0x01] + [0x95, 0x08, 0x75, 0x01, 0x15, 0x00, 0x25, 0x01]
  {
    ApplicationCollectionBytes(); ModifierGlobalsBytes();
    EncodeAppend(ApplicationCollection, ModifierGlobals);
    AllWellFormedAppend(ApplicationCollection, ModifierGlobals);
  }

  lemma ModifierBytesEncoding()
    ensures AllWellFormed(ModifierBytes) && Encode(ModifierBytes) == [0x05, 0x07, 0x19, 0xe0, 0x29, 0xe7, 0x81, 0x02] + [0x95, 0x01, 0x75, 0x08, 0x81, 0x01]
  {
    ModifierInputBytes(); ReservedInputBytes();
    EncodeAppend(ModifierInput, ReservedInput);
    AllWellFormedAppend(ModifierInput, ReservedInput);
  }

  lemma LedByteEncoding()
    ensures AllWellFormed(LedByte) && Encode(LedByte) == [0x95, 0x05, 0x75, 0x01, 0x05, 0x08] + [0x19, 0x01, 0x29, 0x05, 0x91, 0x02] + [0x95, 0x01, 0x75, 0x03, 0x91, 0x01]
  {
    LedGlobalsBytes(); LedOutputBytes(); LedPaddingBytes();
    EncodeAppend(LedGlobals, LedOutput);
    AllWellFormedAppend(LedGlobals, LedOutput);
    EncodeAppend(LedGlobals + LedOutput, LedPadding);
    AllWellFormedAppend(LedGlobals + LedOutput, LedPadding);
  }

  lemma KeyArrayItemsEncoding()
    ensures AllWellFormed(KeyArrayItems) && Encode(KeyArrayItems) == [0x95, 0x06, 0x75, 0x08, 0x15, 0x00, 0x25, 0xff] + [0x05, 0x07, 0x19, 0x00, 0x29, 0xff, 0x81, 0x00] + [0xc0]
  {
    KeyGlobalsBytes(); KeyInputBytes(); EndCollectionBytes();
    EncodeAppend(KeyGlobals, KeyInput);
    AllWellFormedAppend(KeyGlobals, KeyInput);
    EncodeAppend(KeyGlobals + KeyInput, EndCollection);
    AllWellFormedAppend(KeyGlobals + KeyInput, EndCollection);
  }

  lemma EncodeParts(p1: seq<Item>, p2: seq<Item>, p3: seq<Item>, p4: seq<Item>)
    ensures Encode(p1 + p2 + p3 + p4) == Encode(p1) + Encode(p2) + Encode(p3) + Encode(p4)
  {
    EncodeAppend(p1, p2);
    EncodeAppend(p1 + p2, p3);
    EncodeAppend(p1 + p2 + p3, p4);
  }

  lemma AllWellFormedParts(p1: seq<Item>, p2: seq<Item>, p3: seq<Item>, p4: seq<Item>)
    requires AllWellFormed(p1) && AllWellFormed(p2) && AllWellFormed(p3) && AllWellFormed(p4)
    ensures AllWellFormed(p1 + p2 + p3 + p4)
  {
    AllWellFormedAppend(p1, p2);
    AllWellFormedAppend(p1 + p2, p3);
    AllWellFormedAppend(p1 + p2 + p3, p4);
  }

  /** The item list is well formed and is exactly what the 63 bytes encode. */
  lemma KeyboardItemsEncoding()
    ensures AllWellFormed(KeyboardItems)
    ensures Encode(KeyboardItems) == ReportDescriptor
  {
    HeaderItemsEncoding(); ModifierBytesEncoding(); LedByteEncoding(); KeyArrayItemsEncoding();
    EncodeParts(HeaderItems, ModifierBytes, LedByte, KeyArrayItems);
    AllWellFormedParts(HeaderItems, ModifierBytes, LedByte, KeyArrayItems);
  }

  /** The walker consumes all 63 bytes of the report descriptor without error,
      yielding exactly the keyboard's items. */
  lemma ReportDescriptorParses()
    ensures |ReportDescriptor| == 63
    ensures Parse(ReportDescriptor) == Ok(KeyboardItems)
  {
    KeyboardItemsEncoding();
    ParseEncode(KeyboardItems);
  }

  // The walker after each part, each part started with no fields found.
  const AfterHeader: Walker := Settled(1, 0, 1, 1, 8, 1, [])
  const AfterModifierBytes: Walker := Settled(7, 0, 1, 8, 1, 1, KeyboardFields[0..2])
  const AfterLedByte: Walker := Settled(8, 0, 1, 3, 1, 1, KeyboardFields[2..4])
  const AfterKeyArray: Walker := Settled(7, 0, 0xff, 8, 6, 0, KeyboardFields[4..5])

  lemma HeaderItemsWalk()
    ensures Walk(HeaderItems, Start) == AfterHeader
  {
    ApplicationCollectionWalk(); ModifierGlobalsWalk();
    WalkThen(ApplicationCollection, ModifierGlobals, Start, Settled(1, 0, 0, 0, 0, 1, []),
             Settled(1, 0, 1, 1, 8, 1, []));
  }

  lemma ModifierBytesWalk()
    ensures Walk(ModifierBytes, Reset(AfterHeader)) == AfterModifierBytes
  {
    var f := KeyboardFields;
    ModifierInputWalk(); ReservedInputWalk();
    WalkThen(ModifierInput, ReservedInput, Settled(1, 0, 1, 1, 8, 1, []), Settled(7, 0, 1, 1, 8, 1, f[0..1]),
             Settled(7, 0, 1, 8, 1, 1, f[1..2]));
    assert f[0..1] + f[1..2] == f[0..2];
  }

  lemma LedByteWalk()
    ensures Walk(LedByte, Reset(AfterModifierBytes)) == AfterLedByte
  {
    var f := KeyboardFields;
    LedGlobalsWalk(); LedOutputWalk(); LedPaddingWalk();
    var w := Settled(7, 0, 1, 8, 1, 1, []);
    WalkThen(LedGlobals, LedOutput, w, Settled(8, 0, 1, 1, 5, 1, []), Settled(8, 0, 1, 1, 5, 1, f[2..3]));
    WalkThen(LedGlobals + LedOutput, LedPadding, w, Settled(8, 0, 1, 1, 5, 1, [] + f[2..3]),
             Settled(8, 0, 1, 3, 1, 1, f[3..4]));
    assert [] + f[2..3] + f[3..4] == f[2..4];
  }

  lemma KeyArrayItemsWalk()
    ensures Walk(KeyArrayItems, Reset(AfterLedByte)) == AfterKeyArray
  {
    var f := KeyboardFields;
    KeyGlobalsWalk(); KeyInputWalk(); EndCollectionWalk();
    var w := Settled(8, 0, 1, 3, 1, 1, []);
    WalkThen(KeyGlobals, KeyInput, w, Settled(8, 0, 0xff, 8, 6, 1, []), Settled(7, 0, 0xff, 8, 6, 1, f[4..5]));
    WalkThen(KeyGlobals + KeyInput, EndCollection, w, Settled(7, 0, 0xff, 8, 6, 1, [] + f[4..5]),
             Settled(7, 0, 0xff, 8, 6, 0, []));
    assert [] + f[4..5] + [] == f[4..5];
  }

  lemma WalkParts(p1: seq<Item>, p2: seq<Item>, p3: seq<Item>, p4: seq<Item>,
                  w: Walker, x1: Walker, x2: Walker, x3: Walker, x4: Walker)
    requires Walk(p1, w) == x1
    requires Walk(p2, Reset(x1)) == x2
    requires Walk(p3, Reset(x2)) == x3
    requires Walk(p4, Reset(x3)) == x4
    ensures Walk(p1 + p2 + p3 + p4, w) == After(x1.fields + x2.fields + x3.fields, x4)
  {
    WalkThen(p1, p2, w, x1, x2);
    var z2 := After(x1.fields, x2);
    assert Reset(z2) == Reset(x2);
    WalkThen(p1 + p2, p3, w, z2, x3);
    var z3 := After(z2.fields, x3);
    assert Reset(z3) == Reset(x3);
    WalkThen(p1 + p2 + p3, p4, w, z3, x4);
  }

  /** The descriptor declares the five fields of the boot-keyboard report, in order. */
  lemma KeyboardLayout()
    ensures LayoutOf(KeyboardItems) == Layout(KeyboardFields)
  {
    HeaderItemsWalk(); ModifierBytesWalk(); LedByteWalk(); KeyArrayItemsWalk();
    WalkParts(HeaderItems, ModifierBytes, LedByte, KeyArrayItems, Start,
              AfterHeader, AfterModifierBytes, AfterLedByte, AfterKeyArray);
    var f := KeyboardFields;
    assert [] + f[0..2] + f[2..4] + f[4..5] == f;
  }

  /** The one application collection is opened and closed properly. */
  lemma KeyboardBalanced()
    ensures Balanced(KeyboardItems)
  {
    KeyboardLayout();
    LayoutIffBalanced(KeyboardItems);
  }

  /** The input report is 64 bits (8 modifier bits, 8 reserved, 6 key bytes) and
      the output report 8 bits (5 LEDs, 3 padding); there is no feature report. */
  lemma ReportSizes()
    ensures Bits(KeyboardFields, Input) == 64
    ensures Bits(KeyboardFields, Output) == 8
    ensures Bits(KeyboardFields, Feature) == 0
  {
  }

  // ----- HID class descriptor (HID 1.11, section 6.2.1) -----

  /** hid_function: the 6-byte HID descriptor followed by one packed 3-byte entry
      naming the report descriptor, 9 bytes in all. */
  datatype HidFunction = HidFunction(
    bLength: byte,
    bDescriptorType: byte,
    bcdHID: u16,
    bCountryCode: byte,
    bNumDescriptors: byte,
    bReportDescriptorType: byte,
    wDescriptorLength: u16)

  /** sizeof(hid_function): both structs are packed, so 6 + 3 bytes. */
  const HID_FUNCTION_SIZE: byte := 9

  const HidFunctionDescr: HidFunction := HidFunction(
    bLength := HID_FUNCTION_SIZE,
    bDescriptorType := USB_DT_HID,
    bcdHID := 0x0111,
    bCountryCode := 0,
    bNumDescriptors := 1,
    bReportDescriptorType := USB_DT_REPORT,
    wDescriptorLength := |ReportDescriptor| as u16)

  function EncodeHidFunction(h: HidFunction): (r: seq<byte>)
    ensures |r| == HID_FUNCTION_SIZE as int
  {
    [h.bLength, h.bDescriptorType] + LittleEndian(h.bcdHID)
      + [h.bCountryCode, h.bNumDescriptors, h.bReportDescriptorType] + LittleEndian(h.wDescriptorLength)
  }

  function DecodeHidFunction(s: seq<byte>): Option<HidFunction> {
    if |s| != HID_FUNCTION_SIZE as int then None
    else Some(HidFunction(s[0], s[1], FromLittleEndian(s[2], s[3]), s[4], s[5], s[6], FromLittleEndian(s[7], s[8])))
  }

  lemma HidFunctionRoundTrip(h: HidFunction)
    ensures DecodeHidFunction(EncodeHidFunction(h)) == Some(h)
  {
    LittleEndianRoundTrip(h.bcdHID);
    LittleEndianRoundTrip(h.wDescriptorLength);
  }

  /** Decoding accepts exactly the 9-byte strings, and those encode back unchanged. */
  lemma HidFunctionDecodeEncode(s: seq<byte>)
    ensures DecodeHidFunction(s).Some? <==> |s| == HID_FUNCTION_SIZE as int
    ensures DecodeHidFunction(s).Some? ==> EncodeHidFunction(DecodeHidFunction(s).value) == s
  {
    if |s| == HID_FUNCTION_SIZE as int {
      var h := DecodeHidFunction(s).value;
      assert LittleEndian(h.bcdHID) == s[2..4];
      assert LittleEndian(h.wDescriptorLength) == s[7..9];
      assert s == s[..2] + s[2..4] + s[4..7] + s[7..9];
    }
  }

  // ----- Interface and configuration descriptors (USB 2.0, sections 9.6.3 and 9.6.5) -----

  /** An interface descriptor together with what libopencm3 sends after it: the
      class-specific bytes `extra` (extralen of them) and the endpoint descriptors. */
  datatype InterfaceDescriptor = InterfaceDescriptor(
    bLength: byte,
    bDescriptorType: byte,
    bInterfaceNumber: byte,
    bAlternateSetting: byte,
    bNumEndpoints: byte,
    bInterfaceClass: byte,
    bInterfaceSubClass: byte,
    bInterfaceProtocol: byte,
    iInterface: byte,
    endpoints: seq<EndpointDescriptor>,
    extra: seq<byte>,
    extralen: nat)

  const HidIface: InterfaceDescriptor := InterfaceDescriptor(
    bLength := USB_DT_INTERFACE_SIZE,
    bDescriptorType := USB_DT_INTERFACE,
    bInterfaceNumber := 0,
    bAlternateSetting := 0,
    bNumEndpoints := 1,
    bInterfaceClass := USB_CLASS_HID,
    bInterfaceSubClass := 0,
    bInterfaceProtocol := 2,
    iInterface := 0,
    endpoints := [HidEndpoint],
    extra := EncodeHidFunction(HidFunctionDescr),
    extralen := HID_FUNCTION_SIZE as nat)

  function EncodeInterface(i: InterfaceDescriptor): (r: seq<byte>)
    ensures |r| == USB_DT_INTERFACE_SIZE as int
  {
    [i.bLength, i.bDescriptorType, i.bInterfaceNumber, i.bAlternateSetting, i.bNumEndpoints,
     i.bInterfaceClass, i.bInterfaceSubClass, i.bInterfaceProtocol, i.iInterface]
  }

  /** A configuration descriptor with its interfaces, each a list of alternate settings. */
  datatype ConfigDescriptor = ConfigDescriptor(
    bLength: byte,
    bDescriptorType: byte,
    wTotalLength: u16,
    bNumInterfaces: byte,
    bConfigurationValue: byte,
    iConfiguration: byte,
    bmAttributes: byte,
    bMaxPower: byte,
    interfaces: seq<seq<InterfaceDescriptor>>)

  /** wTotalLength is left 0 here; libopencm3 computes it when it sends the configuration. */
  const Config: ConfigDescriptor := ConfigDescriptor(
    bLength := USB_DT_CONFIGURATION_SIZE,
    bDescriptorType := USB_DT_CONFIGURATION,
    wTotalLength := 0,
    bNumInterfaces := 1,
    bConfigurationValue := 1,
    iConfiguration := 0,
    bmAttributes := 0xC0,
    bMaxPower := 0x32,
    interfaces := [[HidIface]])

  function EncodeConfigHeader(c: ConfigDescriptor): (r: seq<byte>)
    ensures |r| == USB_DT_CONFIGURATION_SIZE as int
  {
    [c.bLength, c.bDescriptorType] + LittleEndian(c.wTotalLength)
      + [c.bNumInterfaces, c.bConfigurationValue, c.iConfiguration, c.bmAttributes, c.bMaxPower]
  }

  // ----- The tables agree with each other -----

  /** The HID descriptor announces one report descriptor of exactly the length
      of hid_report_descriptor, and its own bLength is its encoded size. */
  lemma HidFunctionDescribesReport()
    ensures HidFunctionDescr.bDescriptorType == USB_DT_HID
    ensures HidFunctionDescr.bNumDescriptors == 1
    ensures HidFunctionDescr.bReportDescriptorType == USB_DT_REPORT
    ensures HidFunctionDescr.wDescriptorLength as int == |ReportDescriptor| == 63
    ensures HidFunctionDescr.bLength as int == |EncodeHidFunction(HidFunctionDescr)|
  {
  }

  /** Every descriptor's bLength is the size of its encoding and its type field
      names its kind. */
  lemma DescriptorHeaders()
    ensures DevDescr.bLength as int == |EncodeDevice(DevDescr)| && DevDescr.bDescriptorType == USB_DT_DEVICE
    ensures Config.bLength as int == |EncodeConfigHeader(Config)| && Config.bDescriptorType == USB_DT_CONFIGURATION
    ensures HidIface.bLength as int == |EncodeInterface(HidIface)| && HidIface.bDescriptorType == USB_DT_INTERFACE
    ensures HidEndpoint.bLength as int == |EncodeEndpoint(HidEndpoint)| && HidEndpoint.bDescriptorType == USB_DT_ENDPOINT
  {
  }

  /** The device has one configuration, the configuration lists its one interface,
      and that interface carries the HID descriptor and one endpoint. */
  lemma DescriptorTree()
    ensures DevDescr.bNumConfigurations == 1
    ensures Config.bNumInterfaces as int == |Config.interfaces| && Config.interfaces == [[HidIface]]
    ensures HidIface.bInterfaceClass == USB_CLASS_HID
    ensures HidIface.bNumEndpoints as int == |HidIface.endpoints| && HidIface.endpoints == [HidEndpoint]
    ensures HidIface.extralen == |HidIface.extra| == HidFunctionDescr.bLength as int
    ensures DecodeHidFunction(HidIface.extra) == Some(HidFunctionDescr)
  {
    HidFunctionRoundTrip(HidFunctionDescr);
  }

  /** The whole chain in one statement: the 63 bytes parse, the items have a
      layout, and its Input fields fill exactly one packet of wMaxPacketSize bytes. */
  lemma ReportDescriptorFillsPacket()
    ensures Parse(ReportDescriptor).Ok?
    ensures LayoutOf(Parse(ReportDescriptor).value).Layout?
    ensures Bits(LayoutOf(Parse(ReportDescriptor).value).fields, Input) == 8 * HidEndpoint.wMaxPacketSize as int
  {
    ReportDescriptorParses();
    KeyboardLayout();
    ReportSizes();
  }

  /** The endpoint is interrupt IN endpoint 1, and one packet of wMaxPacketSize
      bytes holds exactly the 64-bit input report. */
  lemma EndpointCarriesInputReport()
    ensures IsIn(HidEndpoint.bEndpointAddress) && EndpointNumber(HidEndpoint.bEndpointAddress) == 1
    ensures TransferType(HidEndpoint.bmAttributes) == USB_ENDPOINT_ATTR_INTERRUPT as nat
    ensures 8 * HidEndpoint.wMaxPacketSize as int == Bits(KeyboardFields, Input)
  {
    ReportSizes();
  }
}
