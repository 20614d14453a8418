/** Basic USB 2.0 vocabulary used by the firmware: byte-sized and 16-bit integers,
    the standard request and descriptor codes, and the 8-byte setup packet of a
    control transfer (section 9.3 of the USB 2.0 specification). */
module UsbStd {

  newtype byte = x: int | 0 <= x < 0x100
  newtype u16 = x: int | 0 <= x < 0x1_0000

  datatype Option<T> = None | Some(value: T)

  /** Standard request codes (USB 2.0, Table 9-4). */
  const USB_REQ_GET_DESCRIPTOR: byte := 6

  /** Descriptor types (USB 2.0, Table 9-5; HID 1.11, section 7.1). */
  const USB_DT_DEVICE: byte := 1
  const USB_DT_CONFIGURATION: byte := 2
  const USB_DT_INTERFACE: byte := 4
  const USB_DT_ENDPOINT: byte := 5
  const USB_DT_HID: byte := 0x21
  const USB_DT_REPORT: byte := 0x22

  /** Fixed descriptor sizes (USB 2.0, Tables 9-8, 9-10, 9-12, 9-13). */
  const USB_DT_DEVICE_SIZE: byte := 18
  const USB_DT_CONFIGURATION_SIZE: byte := 9
  const USB_DT_INTERFACE_SIZE: byte := 9
  const USB_DT_ENDPOINT_SIZE: byte := 7

  /** Interface class code of HID. */
  const USB_CLASS_HID: byte := 3

  /** Endpoint transfer type in bits 1..0 of bmAttributes. */
  const USB_ENDPOINT_ATTR_INTERRUPT: byte := 3

  /** The bit fields of bmRequestType (USB 2.0, Table 9-2), as libopencm3 names them. */
  const USB_REQ_TYPE_IN: byte := 0x80
  const USB_REQ_TYPE_STANDARD: byte := 0x00
  const USB_REQ_TYPE_INTERFACE: byte := 0x01
  const USB_REQ_TYPE_TYPE: byte := 0x60
  const USB_REQ_TYPE_RECIPIENT: byte := 0x1F

  function Pow2(n: nat): (p: nat)
    ensures p > 0
  {
    if n == 0 then 1 else 2 * Pow2(n - 1)
  }

  /** Bitwise AND and OR of the low n bits of a and b. */
  function AndBits(a: nat, b: nat, n: nat): (r: nat)
    ensures r < Pow2(n)
  {
    if n == 0 then 0 else (a % 2) * (b % 2) + 2 * AndBits(a / 2, b / 2, n - 1)
  }

  function OrBits(a: nat, b: nat, n: nat): (r: nat)
    ensures r < Pow2(n)
  {
    if n == 0 then 0 else (if a % 2 == 1 || b % 2 == 1 then 1 else 0) + 2 * OrBits(a / 2, b / 2, n - 1)
  }

  function And(a: byte, b: byte): byte { AndBits(a as nat, b as nat, 8) as byte }
  function Or(a: byte, b: byte): byte { OrBits(a as nat, b as nat, 8) as byte }

  lemma {:induction false} AndNothing(a: nat, n: nat)
    ensures AndBits(a, 0, n) == 0
  {
    if n > 0 { AndNothing(a / 2, n - 1); }
  }

  lemma ModUnique(a: int, d: int, q: int, r: int)
    requires d > 0 && a == d * q + r && 0 <= r < d
    ensures a % d == r
  {
    var q', r' := a / d, a % d;
    assert a == d * q' + r';
    var e := q - q';
    assert d * q == d * q' + d * e;
    assert d * e == r' - r;
  }

  lemma ModDouble(a: nat, p: nat)
    requires p > 0
    ensures a % (2 * p) == a % 2 + 2 * ((a / 2) % p)
  {
    var h, q := a / 2, a / 2 / p;
    assert h == p * q + h % p;
    assert a == 2 * h + a % 2;
    assert a == (2 * p) * q + (a % 2 + 2 * (h % p));
    ModUnique(a, 2 * p, q, a % 2 + 2 * (h % p));
  }

  /** ANDing with k low one-bits keeps the value modulo 2^k. */
  lemma {:induction false} AndLowMask(a: nat, k: nat, n: nat)
    requires k <= n
    ensures AndBits(a, Pow2(k) - 1, n) == a % Pow2(k)
  {
    if k == 0 {
      AndNothing(a, n);
    } else {
      AndLowMask(a / 2, k - 1, n - 1);
      assert (Pow2(k) - 1) % 2 == 1 && (Pow2(k) - 1) / 2 == Pow2(k - 1) - 1;
      ModDouble(a, Pow2(k - 1));
    }
  }

  /** The setup packet of a control transfer. */
  datatype SetupData = SetupData(
    bmRequestType: byte,
    bRequest: byte,
    wValue: u16,
    wIndex: u16,
    wLength: u16)

  datatype Direction = HostToDevice | DeviceToHost
  datatype RequestKind = Standard | Class | Vendor | ReservedKind
  datatype Recipient = Device | Interface | Endpoint | Other | ReservedRecipient(code: nat)

  /** Bit 7 of bmRequestType. */
  function DirectionOf(t: byte): (d: Direction)
    ensures d == DeviceToHost <==> t >= 0x80
  {
    if t as int / 128 == 1 then DeviceToHost else HostToDevice
  }

  /** Bits 6..5 of bmRequestType. */
  function KindOf(t: byte): (k: RequestKind)
    ensures k == Standard <==> t as int % 128 < 32
  {
    match t as int / 32 % 4
    case 0 => Standard
    case 1 => Class
    case 2 => Vendor
    case _ => ReservedKind
  }

  /** Bits 4..0 of bmRequestType. */
  function RecipientOf(t: byte): (r: Recipient)
    ensures r == Interface <==> t as int % 32 == 1
  {
    match t as int % 32
    case 0 => Device
    case 1 => Interface
    case 2 => Endpoint
    case 3 => Other
    case n => ReservedRecipient(n)
  }

  /** For GET_DESCRIPTOR, the high byte of wValue is the descriptor type and the
      low byte its index (USB 2.0, section 9.4.3). */
  function DescriptorTypeOf(w: u16): byte { (w as int / 256) as byte }
  function DescriptorIndexOf(w: u16): byte { (w as int % 256) as byte }

  /** wValue is determined by its two bytes. */
  lemma {:induction false} DescriptorValueBytes(w: u16)
    ensures w as int == DescriptorTypeOf(w) as int * 256 + DescriptorIndexOf(w) as int
  {
  }

  /** bmRequestType is determined by its three fields: direction, kind and recipient. */
  lemma RequestTypeFields(t: byte)
    ensures DirectionOf(t) == DeviceToHost && KindOf(t) == Standard && RecipientOf(t) == Interface
            <==> t == USB_REQ_TYPE_IN + USB_REQ_TYPE_STANDARD + USB_REQ_TYPE_INTERFACE
  {
  }

  /** Little-endian encoding of a 16-bit field, as on the wire. */
  function LittleEndian(w: u16): (r: seq<byte>)
    ensures |r| == 2
  {
    [(w as int % 256) as byte, (w as int / 256) as byte]
  }

  function FromLittleEndian(lo: byte, hi: byte): u16 {
    (lo as int + 256 * hi as int) as u16
  }

  lemma LittleEndianRoundTrip(w: u16)
    ensures FromLittleEndian(LittleEndian(w)[0], LittleEndian(w)[1]) == w
  {
  }
}
