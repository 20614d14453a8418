/** The report layout a HID report descriptor declares (HID 1.11, sections
    6.2.2.4 to 6.2.2.8). Walking the items in order, Global items (Usage Page,
    Logical Minimum/Maximum, Report Size, Report Count) set values that persist
    until changed; Local items (Usage, Usage Minimum/Maximum) apply to the next
    Main item only; every Input, Output or Feature Main item declares one field
    of Report Count values of Report Size bits each, placed after the earlier
    fields of the same kind; Collection and End Collection must nest. */
module HidLayout {
  import opened UsbStd
  import opened HidItems

  /** Main item tags (HID 1.11, section 6.2.2.4). */
  const TAG_INPUT: nat := 8
  const TAG_OUTPUT: nat := 9
  const TAG_COLLECTION: nat := 10
  const TAG_FEATURE: nat := 11
  const TAG_END_COLLECTION: nat := 12

  /** Global item tags (section 6.2.2.7). */
  const TAG_USAGE_PAGE: nat := 0
  const TAG_LOGICAL_MINIMUM: nat := 1
  const TAG_LOGICAL_MAXIMUM: nat := 2
  const TAG_REPORT_SIZE: nat := 7
  const TAG_REPORT_COUNT: nat := 9

  /** Local item tags (section 6.2.2.8). */
  const TAG_USAGE: nat := 0
  const TAG_USAGE_MINIMUM: nat := 1
  const TAG_USAGE_MAXIMUM: nat := 2

  datatype FieldKind = Input | Output | Feature

  /** One field of a report, as declared by one Input, Output or Feature item.
      `flags` is the item's data (bit 0 set: Constant; bit 1 set: Variable). */
  datatype Field = Field(
    kind: FieldKind,
    flags: nat,
    reportSize: nat,
    reportCount: nat,
    usagePage: nat,
    logicalMin: nat,
    logicalMax: nat,
    usages: seq<nat>,
    usageMin: Option<nat>,
    usageMax: Option<nat>)

  /** The walker's state: the current Global and Local values, the collection
      depth, whether an End Collection ever appeared with no open collection,
      and the fields found so far. */
  datatype Walker = Walker(
    usagePage: nat,
    logicalMin: nat,
    logicalMax: nat,
    reportSize: nat,
    reportCount: nat,
    usages: seq<nat>,
    usageMin: Option<nat>,
    usageMax: Option<nat>,
    depth: nat,
    underflow: bool,
    fields: seq<Field>)

  const Start: Walker := Walker(0, 0, 0, 0, 0, [], None, None, 0, false, [])

  datatype LayoutError = UnbalancedEnd | UnclosedCollection

  datatype Layout = Layout(fields: seq<Field>) | Invalid(error: LayoutError)

  function FieldBits(f: Field): nat { f.reportSize * f.reportCount }

  function ClearLocals(w: Walker): Walker {
    w.(usages := [], usageMin := None, usageMax := None)
  }

  function MainField(w: Walker, kind: FieldKind, flags: nat): Field {
    Field(kind, flags, w.reportSize, w.reportCount, w.usagePage, w.logicalMin, w.logicalMax,
          w.usages, w.usageMin, w.usageMax)
  }

  /** The effect of one item on the walker. */
  function Step(w: Walker, it: Item): Walker {
    var v := Unsigned(it.data);
    match it.kind
    case Main =>
      if it.tag == TAG_INPUT then ClearLocals(w.(fields := w.fields + [MainField(w, Input, v)]))
      else if it.tag == TAG_OUTPUT then ClearLocals(w.(fields := w.fields + [MainField(w, Output, v)]))
      else if it.tag == TAG_FEATURE then ClearLocals(w.(fields := w.fields + [MainField(w, Feature, v)]))
      else if it.tag == TAG_COLLECTION then ClearLocals(w.(depth := w.depth + 1))
      else if it.tag == TAG_END_COLLECTION then
        if w.depth == 0 then ClearLocals(w.(underflow := true)) else ClearLocals(w.(depth := w.depth - 1))
      else ClearLocals(w)
    case Global =>
      if it.tag == TAG_USAGE_PAGE then w.(usagePage := v)
      else if it.tag == TAG_LOGICAL_MINIMUM then w.(logicalMin := v)
      else if it.tag == TAG_LOGICAL_MAXIMUM then w.(logicalMax := v)
      else if it.tag == TAG_REPORT_SIZE then w.(reportSize := v)
      else if it.tag == TAG_REPORT_COUNT then w.(reportCount := v)
      else w
    case Local =>
      if it.tag == TAG_USAGE then w.(usages := w.usages + [v])
      else if it.tag == TAG_USAGE_MINIMUM then w.(usageMin := Some(v))
      else if it.tag == TAG_USAGE_MAXIMUM then w.(usageMax := Some(v))
      else w
    case Reserved => w
  }

  /** The walker after all the items, in order. */
  function Walk(items: seq<Item>, w: Walker): Walker {
    if items == [] then w else Walk(items[1..], Step(w, items[0]))
  }

  /** The fields a descriptor declares, or why its collections do not nest. */
  function LayoutOf(items: seq<Item>): Layout {
    var w := Walk(items, Start);
    if w.underflow then Invalid(UnbalancedEnd)
    else if w.depth != 0 then Invalid(UnclosedCollection)
    else Layout(w.fields)
  }

  /** Walking a concatenation walks the first part, then the second. */
  lemma {:induction false} WalkAppend(a: seq<Item>, b: seq<Item>, w: Walker)
    ensures Walk(a + b, w) == Walk(b, Walk(a, w))
  {
    if a == [] {
      assert a + b == b;
    } else {
      assert (a + b)[0] == a[0];
      assert (a + b)[1..] == a[1..] + b;
      WalkAppend(a[1..], b, Step(w, a[0]));
    }
  }

  /** The walker state w with no fields found yet. */
  function Reset(w: Walker): Walker { w.(fields := []) }

  /** The walker state w with fields fs found before its own. */
  function After(fs: seq<Field>, w: Walker): Walker { w.(fields := fs + w.fields) }

  /** One step appends to the field list and leaves the fields found so far alone. */
  lemma StepKeepsFields(w: Walker, it: Item)
    ensures Step(w, it) == After(w.fields, Step(Reset(w), it))
  {
    var w0 := Reset(w);
    if it.kind == Main {
      var v := Unsigned(it.data);
      assert [] + [MainField(w0, Input, v)] == [MainField(w, Input, v)];
      assert [] + [MainField(w0, Output, v)] == [MainField(w, Output, v)];
      assert [] + [MainField(w0, Feature, v)] == [MainField(w, Feature, v)];
    } else {
      assert w.fields + [] == w.fields;
    }
  }

  /** The walker only ever appends to its field list: the rest of its state does
      not depend on the fields found so far. */
  lemma {:induction false} WalkKeepsFields(items: seq<Item>, w: Walker)
    ensures Walk(items, w) == After(w.fields, Walk(items, Reset(w)))
  {
    if items == [] {
      assert w.fields + [] == w.fields;
    } else {
      var rest := items[1..];
      var s, s0 := Step(w, items[0]), Step(Reset(w), items[0]);
      StepKeepsFields(w, items[0]);
      assert Reset(s) == Reset(s0);
      WalkKeepsFields(rest, s);
      WalkKeepsFields(rest, s0);
      AfterAfter(w.fields, s0.fields, Walk(rest, Reset(s0)));
    }
  }

  lemma AfterAfter(a: seq<Field>, b: seq<Field>, t: Walker)
    ensures After(a, After(b, t)) == After(a + b, t)
  {
    assert a + (b + t.fields) == (a + b) + t.fields;
  }

  /** Total size in bits of the fields of one kind. */
  function Bits(fields: seq<Field>, kind: FieldKind): nat {
    if fields == [] then 0
    else (if fields[0].kind == kind then FieldBits(fields[0]) else 0) + Bits(fields[1..], kind)
  }

  // ----- Collection nesting, stated independently of the walker -----

  predicate Opens(it: Item) { it.kind == Main && it.tag == TAG_COLLECTION }
  predicate Closes(it: Item) { it.kind == Main && it.tag == TAG_END_COLLECTION }

  function ItemDepth(it: Item): int {
    if Opens(it) then 1 else if Closes(it) then -1 else 0
  }

  /** Collections opened minus collections closed. */
  function Depth(items: seq<Item>): int {
    if items == [] then 0 else ItemDepth(items[0]) + Depth(items[1..])
  }

  /** Every prefix closes no more collections than it opened, and all are closed. */
  ghost predicate Balanced(items: seq<Item>) {
    (forall k :: 0 <= k <= |items| ==> Depth(items[..k]) >= 0) && Depth(items) == 0
  }

  lemma DepthCons(items: seq<Item>, k: nat)
    requires 0 < k <= |items|
    ensures items[..k][1..] == items[1..][..k - 1]
    ensures Depth(items[..k]) == ItemDepth(items[0]) + Depth(items[1..][..k - 1])
  {
    assert items[..k][1..] == items[1..][..k - 1];
  }

  /** The walker's depth and underflow flag track Depth over every prefix. */
  lemma {:induction false} WalkDepth(items: seq<Item>, w: Walker)
    requires !w.underflow
    ensures !Walk(items, w).underflow <==>
      (forall k :: 0 <= k <= |items| ==> w.depth + Depth(items[..k]) >= 0)
    ensures !Walk(items, w).underflow ==> Walk(items, w).depth == w.depth + Depth(items)
  {
    if items == [] {
      assert forall k :: 0 <= k <= |items| ==> items[..k] == [];
    } else {
      var it := items[0];
      var w' := Step(w, it);
      var d := ItemDepth(it);
      if w'.underflow {
        assert Closes(it) && w.depth == 0;
        UnderflowSticksAlways(items[1..], w');
        DepthCons(items, 1);
        assert items[1..][..0] == [];
        assert w.depth + Depth(items[..1]) < 0;
      } else {
        assert w'.depth == w.depth + d;
        WalkDepth(items[1..], w');
        forall k | 0 < k <= |items|
          ensures w.depth + Depth(items[..k]) == w'.depth + Depth(items[1..][..k - 1])
        {
          DepthCons(items, k);
        }
        assert items[..0] == [];
        if forall k :: 0 <= k <= |items[1..]| ==> w'.depth + Depth(items[1..][..k]) >= 0 {
          forall k | 0 <= k <= |items| ensures w.depth + Depth(items[..k]) >= 0 {
            if k > 0 { assert w'.depth + Depth(items[1..][..k - 1]) >= 0; }
          }
        } else {
          var j :| 0 <= j <= |items[1..]| && w'.depth + Depth(items[1..][..j]) < 0;
          assert w.depth + Depth(items[..j + 1]) < 0;
        }
        DepthCons(items, |items|);
        assert items[..|items|] == items && items[1..][..|items| - 1] == items[1..];
      }
    }
  }

  /** Once an End Collection has no collection to close, the walk stays flagged. */
  predicate UnderflowSticks(items: seq<Item>, w: Walker)
  {
    w.underflow ==> Walk(items, w).underflow
  }

  lemma {:induction false} UnderflowSticksAlways(items: seq<Item>, w: Walker)
    ensures UnderflowSticks(items, w)
  {
    if items != [] {
      UnderflowSticksAlways(items[1..], Step(w, items[0]));
    }
  }

  /** A descriptor has a layout exactly when its collections are balanced. */
  lemma LayoutIffBalanced(items: seq<Item>)
    ensures LayoutOf(items).Layout? <==> Balanced(items)
  {
    WalkDepth(items, Start);
    assert items[..|items|] == items;
  }

  // ----- Reading field values out of a report -----

  /** x shifted right by n bits. */
  function Shr(x: nat, n: nat): nat {
    if n == 0 then x else Shr(x / 2, n - 1)
  }

  /** Bit i (0 = least significant) of a byte. */
  function Bit(b: byte, i: nat): nat { Shr(b as nat, i) % 2 }

  /** The value of `size` bits of a report starting at bit `offset`, bits counted
      from the least significant bit of byte 0 upwards (HID 1.11, section 5.8). */
  function ExtractBits(report: seq<byte>, offset: nat, size: nat): nat
    requires offset + size <= 8 * |report|
    decreases size
  {
    if size == 0 then 0
    else Bit(report[offset / 8], offset % 8) + 2 * ExtractBits(report, offset + 1, size - 1)
  }

  /** The `count` values of a field of `size`-bit elements starting at `offset`:
      value i starts at bit offset + size * i. */
  function FieldValues(report: seq<byte>, offset: nat, size: nat, count: nat): (r: seq<nat>)
    requires offset + size * count <= 8 * |report|
    ensures |r| == count
  {
    seq(count, i requires 0 <= i < count =>
      ElementEnds(size, i, count);
      ExtractBits(report, offset + size * i, size))
  }

  lemma {:induction false} ElementEnds(size: nat, i: nat, count: nat)
    requires i < count
    ensures size * i + size <= size * count
    decreases count - i
  {
    assert size * (i + 1) == size * i + size;
    if i + 1 < count {
      ElementEnds(size, i + 1, count);
    }
  }

  /** The values of every field of one kind, in declaration order, read from a
      report whose fields of that kind start at bit `offset`. */
  function DecodeFields(report: seq<byte>, fields: seq<Field>, kind: FieldKind, offset: nat): (r: seq<seq<nat>>)
    requires offset + Bits(fields, kind) <= 8 * |report|
  {
    if fields == [] then []
    else if fields[0].kind != kind then DecodeFields(report, fields[1..], kind, offset)
    else
      [FieldValues(report, offset, fields[0].reportSize, fields[0].reportCount)]
        + DecodeFields(report, fields[1..], kind, offset + FieldBits(fields[0]))
  }

  lemma {:induction false} ShrSucc(x: nat, n: nat)
    ensures Shr(x, n + 1) == Shr(x, n) / 2
  {
    if n > 0 { ShrSucc(x / 2, n - 1); }
  }

  lemma {:induction false} ShrSmall(x: nat, n: nat, p: nat)
    requires p == Pow2(n) && x < p
    ensures Shr(x, n) == 0
  {
    if n > 0 { ShrSmall(x / 2, n - 1, Pow2(n - 1)); }
  }

  lemma {:induction false} ExtractUpper(report: seq<byte>, k: nat, j: nat)
    requires k < |report| && j <= 8
    ensures ExtractBits(report, 8 * k + j, 8 - j) == Shr(report[k] as nat, j)
    decreases 8 - j
  {
    if j == 8 {
      ShrSmall(report[k] as nat, 8, 256);
    } else {
      assert (8 * k + j) / 8 == k && (8 * k + j) % 8 == j;
      ExtractUpper(report, k, j + 1);
      ShrSucc(report[k] as nat, j);
    }
  }

  /** A byte-aligned 8-bit field reads back the byte itself. */
  lemma ExtractByte(report: seq<byte>, k: nat)
    requires k < |report|
    ensures ExtractBits(report, 8 * k, 8) == report[k] as nat
  {
    ExtractUpper(report, k, 0);
  }

  /** The single bit at offset 8 * k + j is bit j of byte k. */
  lemma BitAt(report: seq<byte>, k: nat, j: nat, offset: nat)
    requires k < |report| && j < 8 && offset == 8 * k + j
    ensures ExtractBits(report, offset, 1) == Bit(report[k], j)
  {
    assert offset / 8 == k && offset % 8 == j;
  }

  /** The 8 bits at offset 8 * k are byte k. */
  lemma ByteAt(report: seq<byte>, k: nat, offset: nat)
    requires k < |report| && offset == 8 * k
    ensures ExtractBits(report, offset, 8) == report[k] as nat
  {
    ExtractByte(report, k);
  }
}
