/** hid_control_request: the control-request callback that answers the host's
    GET_DESCRIPTOR request for the HID report descriptor. */
module Control {
  import opened UsbStd
  import opened Descriptors

  /** libopencm3's usbd_request_return_codes. */
  datatype RequestReturn = Notsupp | Handled | NextCallback

  /** A standard, device-to-host request addressed to an interface that asks for
      descriptor type REPORT with index 0 (USB 2.0, section 9.4.3; HID 1.11,
      section 7.1.1), stated on the decoded fields of the setup packet. */
  predicate IsReportDescriptorFetch(req: SetupData) {
    DirectionOf(req.bmRequestType) == DeviceToHost
    && KindOf(req.bmRequestType) == Standard
    && RecipientOf(req.bmRequestType) == Interface
    && req.bRequest == USB_REQ_GET_DESCRIPTOR
    && DescriptorTypeOf(req.wValue) == USB_DT_REPORT
    && DescriptorIndexOf(req.wValue) == 0
  }

  /** The callback: it compares bmRequestType, bRequest and wValue with fixed values,
      and on a match points the reply at the report descriptor. `buf` and `len`
      stand for *buf and *len; `complete` and the device handle are not used. */
  method HidControlRequest(req: SetupData, buf: seq<byte>, len: u16)
    returns (rc: RequestReturn, bufOut: seq<byte>, lenOut: u16)
    ensures rc == Handled <==> IsReportDescriptorFetch(req)
    ensures rc != Handled ==> rc == Notsupp && bufOut == buf && lenOut == len
    ensures rc == Handled ==> bufOut == ReportDescriptor && lenOut as int == |bufOut|
    ensures rc == Handled ==> lenOut == HidFunctionDescr.wDescriptorLength
  {
    RequestTypeFields(req.bmRequestType);
    DescriptorValueBytes(req.wValue);
    if req.bmRequestType != 0x81 || req.bRequest != USB_REQ_GET_DESCRIPTOR || req.wValue != 0x2200 {
      return Notsupp, buf, len;
    }
    ReportDescriptorParses();
    return Handled, ReportDescriptor, |ReportDescriptor| as u16;
  }

  /** Whether the request is answered depends only on bmRequestType, bRequest and
      wValue: wIndex (the interface number) and wLength are not looked at. */
  lemma FetchIgnoresIndexAndLength(req: SetupData, wIndex: u16, wLength: u16)
    ensures IsReportDescriptorFetch(req.(wIndex := wIndex, wLength := wLength))
            == IsReportDescriptorFetch(req)
  {
  }

  /** A request for another descriptor type or another report descriptor index is
      not answered. */
  lemma OnlyReportDescriptorZero(req: SetupData)
    requires DescriptorTypeOf(req.wValue) != USB_DT_REPORT || DescriptorIndexOf(req.wValue) != 0
    ensures !IsReportDescriptorFetch(req)
  {
  }

  /** A fetch is exactly the one setup-packet pattern the callback compares against. */
  lemma FetchIsOnePattern(req: SetupData)
    ensures IsReportDescriptorFetch(req)
            <==> req.bmRequestType == 0x81 && req.bRequest == 6 && req.wValue == 0x2200
  {
    RequestTypeFields(req.bmRequestType);
    DescriptorValueBytes(req.wValue);
  }

  // ----- The filter the callback is registered with -----

  /** libopencm3 hands a request to a registered control callback when
      bmRequestType AND type_mask equals type. */
  predicate PassesFilter(bmRequestType: byte, filterType: byte, typeMask: byte) {
    And(bmRequestType, typeMask) == filterType
  }

  /** hid_set_config registers the callback for standard requests to an interface. */
  const HidFilterType: byte := Or(USB_REQ_TYPE_STANDARD, USB_REQ_TYPE_INTERFACE)
  const HidFilterMask: byte := Or(USB_REQ_TYPE_TYPE, USB_REQ_TYPE_RECIPIENT)

  /** The filter admits every standard request to an interface, in either
      direction; the callback answers only the report-descriptor fetch and
      refuses the rest. */
  lemma FilterAdmitsStandardInterface(req: SetupData)
    ensures PassesFilter(req.bmRequestType, HidFilterType, HidFilterMask)
            <==> KindOf(req.bmRequestType) == Standard && RecipientOf(req.bmRequestType) == Interface
    ensures IsReportDescriptorFetch(req) ==> PassesFilter(req.bmRequestType, HidFilterType, HidFilterMask)
    ensures DirectionOf(req.bmRequestType) == HostToDevice ==> !IsReportDescriptorFetch(req)
  {
    var t := req.bmRequestType;
    FilterConstants();
    MaskedRequestType(t);
    TypeAndRecipientBits(t);
  }

  /** Device-to-host requests that pass the filter and are still refused:
      GET_STATUS to an interface, and GET_DESCRIPTOR for the HID descriptor. */
  lemma FilterAdmitsRefusedRequests()
    ensures var status := SetupData(0x81, 0, 0, 0, 2);
            PassesFilter(status.bmRequestType, HidFilterType, HidFilterMask)
            && DirectionOf(status.bmRequestType) == DeviceToHost && !IsReportDescriptorFetch(status)
    ensures var hid := SetupData(0x81, USB_REQ_GET_DESCRIPTOR, 0x2100, 0, 9);
            PassesFilter(hid.bmRequestType, HidFilterType, HidFilterMask)
            && DirectionOf(hid.bmRequestType) == DeviceToHost && !IsReportDescriptorFetch(hid)
  {
    FilterAdmitsStandardInterface(SetupData(0x81, 0, 0, 0, 2));
    FetchIsOnePattern(SetupData(0x81, 0, 0, 0, 2));
    FetchIsOnePattern(SetupData(0x81, USB_REQ_GET_DESCRIPTOR, 0x2100, 0, 9));
  }

  lemma FilterConstants()
    ensures HidFilterType == 0x01 && HidFilterMask == 0x7F
  {
  }

  /** Masking with TYPE | RECIPIENT keeps the low seven bits. */
  lemma MaskedRequestType(t: byte)
    ensures And(t, HidFilterMask) as int == t as int % 128
  {
    FilterConstants();
    assert Pow2(7) == 128;
    AndLowMask(t as nat, 7, 8);
  }

  /** The low seven bits are 1 exactly when the kind bits are 0 and the
      recipient bits are 1. */
  lemma TypeAndRecipientBits(t: byte)
    ensures t as int % 128 == 1 <==> t as int % 128 < 32 && t as int % 32 == 1
  {
    var a, q := t as int % 128, t as int / 128;
    assert t as int == 32 * (4 * q + a / 32) + a % 32;
    ModUnique(t as int, 32, 4 * q + a / 32, a % 32);
  }
}
