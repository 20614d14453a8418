# Mighty Mute: a verified model of a one-key USB HID keyboard

`mightymute.c` is firmware for an STM32F4 board built on libopencm3. It presents
itself to the host as a USB HID keyboard. Its report descriptor uses the
boot-keyboard report layout of Appendix B.1 of HID 1.11, but the interface
declares subclass 0, so it is not a boot device. When the button on pin C4 pulls
EXTI line 4 low, it sends one report with key F20 (usage 0x6F) down, waits, and
then sends a report with every key released.

This project models the firmware's core in Dafny:

- **The constant tables** (module `Descriptors`, file `descriptors.dfy`):
  - the device, configuration, interface, HID-class and endpoint descriptors,
    each with its byte encoding;
  - the 63-byte keyboard report descriptor.
- **The HID item grammar** (`HidItems`, `hid_items.dfy`): short items with a
  prefix byte and 0, 1, 2 or 4 data bytes, as in section 6.2.2 of the HID 1.11
  specification. It has a parser and an encoder, proved to be inverses.
- **The report-layout walker** (`HidLayout`, `hid_layout.dfy`):
  - it keeps the Globals Usage Page, Logical Minimum/Maximum, Report Size and
    Report Count (section 6.2.2.7) and the Locals Usage and Usage
    Minimum/Maximum (section 6.2.2.8), and turns every Input/Output/Feature
    item into a report field;
  - it tracks collection nesting;
  - it reads the field values out of an actual report, bit by bit, least
    significant bit first.
- **The control callback** (`Control`, `control.dfy`): `hid_control_request`
  is a method with the reply buffer and length as in/out values. The module
  also proves which setup packets the callback answers and which ones the
  library's callback filter lets through.
- **The run-time behaviour** (`Firmware`, `firmware.dfy`): a `Board` class
  whose fields hold three things:
  - the log of library calls;
  - the endpoint table;
  - the list of registered control callbacks.

  `hid_set_config`, `delay` and `exti4_isr` are methods on it. `exti4_isr`
  fills an 8-byte `array` in place, just as the C code fills its stack buffer.
  Lemmas then show what the host decodes from each packet, using the layout the
  descriptor declares.
- **USB vocabulary** (`UsbStd`, `usb.dfy`):
  - byte and 16-bit integer types;
  - the standard request and descriptor codes of the USB 2.0 specification
    (Tables 9-2, 9-4 and 9-5);
  - the fields of `bmRequestType`;
  - bitwise AND and OR on bytes, spelled out as arithmetic.

Two remarks on the source:

- The comment on line 106 calls the reserved byte "Const,Var,Abs". The data
  byte is 0x01, which reads as Constant, Array, Absolute. The model follows the
  byte.
- The comment on line 168 marks `bInterfaceProtocol = 2` with a question mark.
  The model keeps the value 2 as written. In the HID class, 2 means a mouse and
  1 a keyboard, though with subclass 0 hosts do not use the protocol code.

## Model

| member | source | states |
|---|---|---|
| UsbStd.DirectionOf | mightymute.c:210 | A request is device-to-host exactly when bit 7 of bmRequestType is set |
| UsbStd.KindOf | mightymute.c:210 | A request is a standard request exactly when bits 6..5 of bmRequestType are zero |
| UsbStd.RecipientOf | mightymute.c:210 | A request is addressed to an interface exactly when bits 4..0 of bmRequestType are 1 |
| UsbStd.RequestTypeFields | mightymute.c:210 | The fields are "device-to-host, standard, interface" if and only if bmRequestType is 0x81, so the callback's literal 0x81 means exactly that |
| UsbStd.DescriptorValueBytes | mightymute.c:212 | wValue is the descriptor type times 256 plus the descriptor index, so 0x2200 means report descriptor 0 |
| UsbStd.LittleEndianRoundTrip | mightymute.c:34 | A 16-bit descriptor field sent low byte first reads back as the same value |
| UsbStd.AndLowMask | mightymute.c:231-232 | ANDing with k low one-bits keeps the value modulo 2^k; this is what the mask TYPE or RECIPIENT does |
| HidItems.SizeCode | mightymute.c:91-129 | The 2-bit size code announces exactly 0, 1, 2 or 4 data bytes |
| HidItems.TypeCode | mightymute.c:91-129 | The 2-bit type code of an item type decodes back to that type |
| HidItems.Prefix | mightymute.c:91-129 | A well-formed item's prefix byte carries its data size, type and tag, and is never the long-item prefix 0xFE |
| HidItems.EncodeItem | mightymute.c:91-129 | An item takes one prefix byte plus its data bytes |
| HidItems.DecodeItemPrefix | mightymute.c:91-129 | A short-item prefix with enough bytes after it decodes to a well-formed item that re-encodes to exactly those bytes |
| HidItems.ParseEncode | mightymute.c:91-129 | Parsing the encoding of any well-formed item list gives that list back |
| HidItems.EncodeParse | mightymute.c:91-129 | A successful parse consumes every byte: its items are well formed and re-encode to the input |
| HidItems.EncodeAppend | mightymute.c:91-129 | The encoding of two item lists one after the other is the concatenation of their encodings |
| HidItems.ParseIffEncoded | mightymute.c:91-129 | A descriptor parses if and only if it is the encoding of some well-formed item list |
| HidLayout.WalkAppend | mightymute.c:91-129 | Walking two item lists one after the other is the same as walking the first, then the second |
| HidLayout.StepKeepsFields | mightymute.c:91-129 | One item only appends to the fields found so far |
| HidLayout.WalkKeepsFields | mightymute.c:91-129 | A walk's Global, Local and depth state does not depend on the fields already found, which it keeps as a prefix |
| HidLayout.AfterAfter | mightymute.c:91-129 | Proof helper: putting two lists of earlier fields in front of a walk state, one after the other, is the same as putting their concatenation |
| HidLayout.WalkDepth | mightymute.c:94-128 | The walker never meets an unmatched End Collection if and only if no prefix closes more collections than it opened; then its final depth is the net count |
| HidLayout.UnderflowSticksAlways | mightymute.c:94-128 | Once an End Collection has closed nothing, the walk stays in error whatever follows |
| HidLayout.LayoutIffBalanced | mightymute.c:94-128 | A descriptor has a layout if and only if its collections are balanced |
| HidLayout.FieldValues | mightymute.c:91-129 | A field of Report Count elements reads back one value per element |
| HidLayout.ElementEnds | mightymute.c:91-129 | Proof helper: element i of a field ends within the field |
| HidLayout.ShrSucc | mightymute.c:95-102 | Proof helper: shifting right by n+1 bits is shifting by n bits and then halving |
| HidLayout.ShrSmall | mightymute.c:119-126 | Proof helper: a value below 2^n shifts to 0 after n bits |
| HidLayout.ExtractUpper | mightymute.c:119-126 | The top 8-j bits of byte k, read from bit 8k+j, are the byte shifted right by j |
| HidLayout.ExtractByte | mightymute.c:119-126 | An 8-bit field that starts on a byte boundary reads back that byte |
| HidLayout.BitAt | mightymute.c:95-102 | The 1-bit field at bit 8k+j is bit j of byte k |
| HidLayout.ByteAt | mightymute.c:104-106 | The 8-bit field at bit 8k is byte k |
| Descriptors.EncodeDevice | mightymute.c:31-46 | A device descriptor takes 18 bytes |
| Descriptors.DeviceRoundTrip | mightymute.c:31-46 | Decoding the 18 bytes of any device descriptor gives it back |
| Descriptors.EncodeEndpoint | mightymute.c:151-158 | An endpoint descriptor takes 7 bytes |
| Descriptors.EndpointRoundTrip | mightymute.c:151-158 | Decoding the 7 bytes of any endpoint descriptor gives it back |
| Descriptors.EndpointDecodeEncode | mightymute.c:151-158 | Decoding succeeds exactly on 7-byte inputs, and its result re-encodes to the input |
| Descriptors.ApplicationCollectionBytes | mightymute.c:92-94 | Usage Page (Generic Desktop), Usage (Keyboard) and Collection (Application) are well formed and encode to the source's six bytes |
| Descriptors.ApplicationCollectionWalk | mightymute.c:92-94 | After the header the usage page is 1 and one collection is open |
| Descriptors.ModifierGlobalsBytes | mightymute.c:95-98 | Report Count 8, Report Size 1 and logical range 0..1 encode to the source's eight bytes |
| Descriptors.ModifierGlobalsWalk | mightymute.c:95-98 | These Globals set count 8, size 1 and range 0..1 |
| Descriptors.ModifierInputBytes | mightymute.c:99-102 | The keyboard page, usages 0xE0..0xE7 and Input (Data, Variable) encode to the source's bytes |
| Descriptors.ModifierInputWalk | mightymute.c:99-102 | This group declares the 8-bit modifier field with usages LeftControl to Right GUI |
| Descriptors.ReservedInputBytes | mightymute.c:104-106 | The reserved byte's three items encode to the source's six bytes |
| Descriptors.ReservedInputWalk | mightymute.c:104-106 | This group declares one constant 8-bit input field |
| Descriptors.LedGlobalsBytes | mightymute.c:108-110 | Report Count 5, Report Size 1 and the LED page encode to the source's bytes |
| Descriptors.LedGlobalsWalk | mightymute.c:108-110 | These Globals set count 5, size 1 and usage page 8 |
| Descriptors.LedOutputBytes | mightymute.c:111-113 | LED usages 1..5 and Output (Data, Variable) encode to the source's bytes |
| Descriptors.LedOutputWalk | mightymute.c:111-113 | This group declares the five LED output bits |
| Descriptors.LedPaddingBytes | mightymute.c:115-117 | The padding items encode to the source's six bytes |
| Descriptors.LedPaddingWalk | mightymute.c:115-117 | This group declares three constant output bits |
| Descriptors.KeyGlobalsBytes | mightymute.c:119-122 | Report Count 6, Report Size 8 and logical range 0..0xFF encode to the source's bytes |
| Descriptors.KeyGlobalsWalk | mightymute.c:119-122 | These Globals set count 6, size 8 and range 0..255 |
| Descriptors.KeyInputBytes | mightymute.c:123-126 | The keyboard page, usages 0..0xFF and Input (Data, Array) encode to the source's bytes |
| Descriptors.KeyInputWalk | mightymute.c:123-126 | This group declares the array of six key codes |
| Descriptors.EndCollectionBytes | mightymute.c:128 | End Collection is the single byte 0xC0 |
| Descriptors.EndCollectionWalk | mightymute.c:128 | End Collection closes the application collection |
| Descriptors.AllWellFormedAppend | mightymute.c:91-129 | Two well-formed item lists, one after the other, are well formed |
| Descriptors.WalkThen | mightymute.c:91-129 | Walking two groups in turn puts the first group's fields before the second's |
| Descriptors.HeaderItemsEncoding | mightymute.c:92-98 | Lines 92-98 are the encoding of the header items |
| Descriptors.ModifierBytesEncoding | mightymute.c:99-106 | Lines 99-106 are the encoding of the modifier and reserved items |
| Descriptors.LedByteEncoding | mightymute.c:108-117 | Lines 108-117 are the encoding of the LED items |
| Descriptors.KeyArrayItemsEncoding | mightymute.c:119-128 | Lines 119-128 are the encoding of the key-array items and End Collection |
| Descriptors.EncodeParts | mightymute.c:91-129 | Four item groups, one after the other, encode to the concatenation of their encodings |
| Descriptors.AllWellFormedParts | mightymute.c:91-129 | Four well-formed item groups, one after the other, are well formed |
| Descriptors.KeyboardItemsEncoding | mightymute.c:91-129 | The keyboard's item list is well formed and encodes to exactly the 63 bytes of hid_report_descriptor |
| Descriptors.ReportDescriptorParses | mightymute.c:91-129 | hid_report_descriptor is 63 bytes, and the parser consumes all of them, yielding the keyboard's items |
| Descriptors.HeaderItemsWalk | mightymute.c:92-98 | The header leaves one collection open, with the modifier Globals set |
| Descriptors.ModifierBytesWalk | mightymute.c:99-106 | The modifier and reserved groups declare the first two input fields |
| Descriptors.LedByteWalk | mightymute.c:108-117 | The LED groups declare the two output fields |
| Descriptors.KeyArrayItemsWalk | mightymute.c:119-128 | The key groups declare the key array and close the collection |
| Descriptors.WalkParts | mightymute.c:91-129 | Walking four groups in turn concatenates their fields in order |
| Descriptors.KeyboardLayout | mightymute.c:91-129 | The descriptor declares exactly five fields: 8 modifier bits, a reserved byte, 5 LED bits, 3 padding bits and 6 key bytes |
| Descriptors.KeyboardBalanced | mightymute.c:94-128 | The descriptor's collections are balanced |
| Descriptors.ReportSizes | mightymute.c:95-126 | The input report is 64 bits, the output report 8 bits, and there is no feature report |
| Descriptors.EncodeHidFunction | mightymute.c:131-149 | The packed HID descriptor takes 9 bytes |
| Descriptors.HidFunctionRoundTrip | mightymute.c:131-149 | Decoding the 9 bytes of any HID descriptor gives it back |
| Descriptors.HidFunctionDecodeEncode | mightymute.c:131-149 | Decoding succeeds exactly on 9-byte inputs, and its result re-encodes to the input |
| Descriptors.EncodeInterface | mightymute.c:160-169 | An interface descriptor takes 9 bytes |
| Descriptors.EncodeConfigHeader | mightymute.c:182-190 | A configuration descriptor's header takes 9 bytes |
| Descriptors.ReportDescriptorFillsPacket | mightymute.c:91-158 | The 63 bytes of hid_report_descriptor parse, their items have a layout, and its Input fields total 8 × wMaxPacketSize bits, one full packet of hid_endpoint |
| Descriptors.HidFunctionDescribesReport | mightymute.c:137-149 | The HID descriptor has type 0x21, names one descriptor of type 0x22 whose wDescriptorLength is 63 (the report descriptor's size), and its bLength is its own 9-byte size |
| Descriptors.DescriptorHeaders | mightymute.c:31-193 | The bLength of every descriptor (device, configuration, interface, endpoint) is the size of its encoding, and its bDescriptorType names its kind |
| Descriptors.DescriptorTree | mightymute.c:160-193 | One configuration with one HID interface; that interface has one endpoint, hid_endpoint, and carries the 9 bytes of hid_function, which decode back to it |
| Descriptors.EndpointCarriesInputReport | mightymute.c:151-158 | The endpoint is interrupt IN endpoint 1, and wMaxPacketSize times 8 equals the 64 bits of the input report |
| Control.HidControlRequest | mightymute.c:204-220 | It returns HANDLED if and only if the request is a standard, device-to-host, interface GET_DESCRIPTOR for report descriptor 0. Otherwise it returns NOTSUPP and leaves buf and len unchanged. When HANDLED, buf is the report descriptor and len equals its size, 63, which is wDescriptorLength |
| Control.FetchIgnoresIndexAndLength | mightymute.c:210-212 | Whether a request is answered does not depend on wIndex or wLength |
| Control.OnlyReportDescriptorZero | mightymute.c:212 | A request for any other descriptor type or index is not answered |
| Control.FetchIsOnePattern | mightymute.c:210-212 | A request is a report-descriptor fetch if and only if bmRequestType is 0x81, bRequest is 6 and wValue is 0x2200 |
| Control.FilterAdmitsStandardInterface | mightymute.c:229-233 | The registered filter admits every standard request to an interface, in either direction; the callback answers only the report-descriptor fetch and refuses the rest |
| Control.FilterAdmitsRefusedRequests | mightymute.c:210-213 | GET_STATUS to an interface and GET_DESCRIPTOR for the HID descriptor (wValue 0x2100) are device-to-host, pass the filter, and are still refused |
| Control.FilterConstants | mightymute.c:231-232 | STANDARD or INTERFACE is 0x01, and TYPE or RECIPIENT is 0x7F |
| Control.MaskedRequestType | mightymute.c:232 | ANDing bmRequestType with the mask keeps its value modulo 128 |
| Control.TypeAndRecipientBits | mightymute.c:231-232 | The low seven bits equal 1 exactly when the type bits are 0 and the recipient bits are 1 |
| Firmware.KeyReport | mightymute.c:279-281 | A boot-keyboard report is 8 bytes: byte 0 holds the modifiers, byte 1 is 0, and the six key slots hold the given keys followed by zeros |
| Firmware.Zeros | mightymute.c:279 | Zero-initialised bytes of the given length |
| Firmware.Board.constructor | mightymute.c:261 | A fresh device has an empty log, no endpoints configured and no control callbacks |
| Firmware.Board.ExtiResetRequest | mightymute.c:278 | Logs the reset of the given EXTI lines and changes nothing else |
| Firmware.Board.UsbdEpSetup | mightymute.c:227 | Logs the call and records the endpoint's type and packet size in the endpoint table |
| Firmware.Board.UsbdRegisterControlCallback | mightymute.c:229-233 | Logs the call and appends the callback, with its filter, to the callback list |
| Firmware.Board.UsbdEpWritePacket | mightymute.c:282 | Logs the first len bytes of the buffer as one packet on the endpoint |
| Firmware.Board.Delay | mightymute.c:268-274 | The loop runs exactly FLASH_DELAY = 100000 times and is logged as one wait of that many nops |
| Firmware.Board.HidSetConfig | mightymute.c:222-234 | Logs the calls in order: it sets up endpoint 0x81 as interrupt with 8-byte packets and no callback, then registers hid_control_request with filter STANDARD or INTERFACE and mask TYPE or RECIPIENT. The endpoint table and callback list change accordingly |
| Firmware.Board.Exti4Isr | mightymute.c:276-288 | In order: resets EXTI4; writes the 8-byte report with F20 in key slot 0 to 0x81; waits; writes the all-zero report; waits. The endpoint table and callbacks are unchanged |
| Firmware.InputFieldsOfReport | mightymute.c:91-129 | An 8-byte report decodes into the modifier bits at bit 0, the reserved byte at bit 8, and the key array at bit 16 |
| Firmware.ModifierField | mightymute.c:95-102 | Modifier value i is bit i of byte 0 |
| Firmware.ReservedField | mightymute.c:104-106 | The reserved field reads byte 1 |
| Firmware.KeyArrayField | mightymute.c:119-126 | Key value i is byte 2+i |
| Firmware.DecodeReport | mightymute.c:91-129 | Any 8-byte report decodes to three input fields: byte 0's bits, byte 1, and bytes 2..7 |
| Firmware.DecodeKeyReport | mightymute.c:279-281 | A report built from a modifier byte and up to six keys decodes, for the host, to exactly those modifier bits, a zero reserved byte, and those keys padded with zeros |
| Firmware.ZeroBits | mightymute.c:279 | A zero byte has all eight bits clear |
| Firmware.PressReportIsF20 | mightymute.c:281-282 | The first packet decodes to no modifiers and F20 (0x6F) alone in the key array; 0x6F is on the Keyboard page and within the key array's usage range 0..0xFF; it is within the logical range only under the unsigned reading of `0x25 0xFF` as 255 (see "Left out") |
| Firmware.ReleaseReportIsEmpty | mightymute.c:284-285 | The second packet decodes to no modifiers and no keys |
| Firmware.PressAndReleaseDiffer | mightymute.c:279-285 | Both packets are wMaxPacketSize (8) bytes long and differ only in byte 2 |
| Firmware.PacketsToAppend | mightymute.c:276-288 | The packets sent to an endpoint during two stretches of the log, one after the other, are the first stretch's packets followed by the second's |
| Firmware.IsrPacketsTo | mightymute.c:276-288 | The interrupt sends the press and then the release report to 0x81, and nothing to any other endpoint |
| Firmware.IsrSendsPressThenRelease | mightymute.c:276-288 | The EXTI4 reset comes first and only once. Exactly the press and release reports go to the HID endpoint, nothing goes elsewhere, and every packet is wMaxPacketSize bytes |
| Firmware.IsrAppendsReports | mightymute.c:276-288 | Each interrupt adds exactly one press report and one release report to the packets written to the endpoint |
| Firmware.SetConfigMatchesDescriptors | mightymute.c:222-234 | The endpoint set up matches hid_endpoint's address, type and packet size. The registered filter admits every report-descriptor fetch and only standard interface requests |
| Firmware.ConfigureEndpointsIdempotent | mightymute.c:227 | Setting up the endpoint twice gives the same table as once, and leaves every other endpoint alone |

## Left out

- main (clock, GPIO, EXTI and NVIC setup, usbd_init, the polling loop) is not modelled. It only configures hardware and hands control to the library.
- The `#if 0` mouse report descriptor is not compiled, so it is not modelled.
- The strings table and usbd_control_buffer are passed to the library and used only there.
- The library's internals are not modelled: descriptor transfer, wLength clamping, assembling the configuration with wTotalLength, and the callback table's size limit and clearing. Library calls appear only as logged actions with their effect on the endpoint table and callback list.
- Firmware.Board.UsbdEpWritePacket: does not model the library's return value (bytes written, or 0 when the endpoint is busy), because the firmware ignores it.
- Firmware.Board.Delay: the nop loop is counted, but time and cycles are not modelled.
- Firmware.Board.Exti4Isr: concurrency with usbd_poll is not modelled. That includes the interrupt firing before usbd_init has set usbd_dev, or before hid_set_config has set up endpoint 0x81. The log records the packets written, not the packets the host receives.
- Firmware.Board.HidSetConfig: repeated calls add the callback again, because the library's clearing of the callback table before each set-configuration callback is not modelled.
- The configuration's wTotalLength is kept at 0 as written; the library fills in the real total when it sends the descriptor.
- HidLayout.Step: item data is read as an unsigned little-endian number. HID 1.11 reads Logical Minimum/Maximum as signed, so the key array's 0x25 0xFF would be -1 rather than 255. The model takes 255, following the comment on line 122; Firmware.PressReportIsF20's logical-range conjunct relies on this reading.
- HidLayout.Step: Physical Minimum/Maximum, Unit Exponent, Unit, Push, Pop, Report ID, Designator, String and Delimiter items are not interpreted, because the descriptor has none.
- HidItems.Parse: long items (prefix 0xFE) are rejected as an error rather than skipped, because the descriptor has none.
- The `complete` and `dev` parameters of hid_control_request and the `wValue` parameter of hid_set_config are unused, so they are not modelled.
