/** Masks in CVAT annotation files (module `goripy.cvat.mask`).

    A `<mask>` element stores only the bounding box of a mask image: its
    `left`, `top`, `width` and `height`, and the RLE of the cropped mask read
    in row-major order (the column-major RLE of its transpose) as decimal
    numbers joined by `", "`. The XML element is reduced to its attribute map. */
module CvatMask {
  import opened Results
  import opened Seqs
  import opened PyNum
  import opened Decimal
  import opened Strings
  import opened Grids
  import opened MaskBbox
  import opened MaskRle

  type Attrs = map<string, string>

  /** The `<mask>` element whose attributes `write_mask_to_xml_item` sets. */
  class MaskItem {
    var attrs: Attrs

    constructor (attrs0: Attrs)
      ensures attrs == attrs0
    {
      attrs := attrs0;
    }

    /** `item.set(key, value)`. */
    method Set(key: string, value: string)
      modifies this
      ensures attrs == old(attrs)[key := value]
    {
      attrs := attrs[key := value];
    }
  }

  const RleSep: string := ", "

  // ---- reading ----

  /** `map(int, parts)`, stopping at the first part that is not an integer. */
  function ParseInts(parts: seq<string>): (r: Result<seq<int>>)
    ensures r.Ok? ==> |r.value| == |parts|
    ensures r.Ok? ==> forall k :: 0 <= k < |parts| ==> ParseInt(parts[k]) == Ok(r.value[k])
    ensures r.Err? ==> exists k :: 0 <= k < |parts| && ParseInt(parts[k]).Err?
  {
    if parts == [] then Ok([])
    else
      match ParseInt(parts[0])
      case Err(e) => Err(e)
      case Ok(v) =>
        match ParseInts(parts[1..])
        case Err(e) => Err(e)
        case Ok(vs) => Ok([v] + vs)
  }

  /** `item.get("rle").split(", ")` parsed as integers; a missing attribute
      is the AttributeError of `None.split`. */
  function ReadRle(attrs: Attrs): Result<seq<int>>
  {
    if "rle" !in attrs then Err(AttributeError)
    else ParseInts(Strings.Split(attrs["rle"], RleSep))
  }

  /** `round(float(item.get(key)))`; a missing attribute is the TypeError of `float(None)`. */
  function ReadRounded(attrs: Attrs, key: string): Result<int>
  {
    if key !in attrs then Err(TypeError)
    else
      match ParseReal(attrs[key])
      case Err(e) => Err(e)
      case Ok(x) => Ok(RoundHalfEven(x))
  }

  /** numpy broadcasts a value dimension `dim` to a target dimension `region`
      when they are equal or the value dimension is 1. */
  predicate Broadcasts(region: nat, dim: nat)
  {
    region == dim || dim == 1
  }

  /** An `h` by `w` all-false grid with `m` written into rows `[r0, r0 + rh)`
      and columns `[c0, c0 + rw)`. */
  function Pasted(h: nat, w: nat, r0: nat, rh: nat, c0: nat, rw: nat, m: Grid<bool>): (g: Grid<bool>)
    requires m.Valid() && r0 + rh <= h && c0 + rw <= w && rh <= m.h && rw <= m.w
    ensures g.Valid() && g.h == h && g.w == w
    ensures forall i: nat, j: nat :: i < h && j < w ==>
      g.At(i, j) == (r0 <= i < r0 + rh && c0 <= j < c0 + rw && m.At(i - r0, j - c0))
  {
    Build(h, w, (i: nat, j: nat) => r0 <= i < r0 + rh && c0 <= j < c0 + rw && m.At(i - r0, j - c0))
  }

  /** `full_mask = numpy.zeros((h, w)); full_mask[y:y+m.h, x:x+m.w] = m`.
      The region is the slice of the image, so it is clipped at the image
      border; a region that `m` cannot be broadcast to is a ValueError. */
  function Paste(h: nat, w: nat, y: int, x: int, m: Grid<bool>): (r: Result<Grid<bool>>)
    requires m.Valid()
    ensures var rows := Slice(Some(y), Some(y + m.h), h);
      var cols := Slice(Some(x), Some(x + m.w), w);
      r.Ok? <==> Broadcasts(rows.1 - rows.0, m.h) && Broadcasts(cols.1 - cols.0, m.w)
    ensures r.Err? ==> r.error == ValueError
    ensures var rows := Slice(Some(y), Some(y + m.h), h);
      var cols := Slice(Some(x), Some(x + m.w), w);
      r.Ok? ==> (r.value.Valid() && r.value.h == h && r.value.w == w
        && forall i: nat, j: nat :: i < h && j < w ==>
          r.value.At(i, j) == (rows.0 <= i < rows.1 && cols.0 <= j < cols.1 && m.At(i - rows.0, j - cols.0)))
  {
    var rows := Slice(Some(y), Some(y + m.h), h);
    var cols := Slice(Some(x), Some(x + m.w), w);
    SliceWidth(y, m.h, h);
    SliceWidth(x, m.w, w);
    if Broadcasts(rows.1 - rows.0, m.h) && Broadcasts(cols.1 - cols.0, m.w) then
      Ok(Pasted(h, w, rows.0, rows.1 - rows.0, cols.0, cols.1 - cols.0, m))
    else Err(ValueError)
  }

  /** The numbers a `<mask>` element holds: the runs, then `left`, `top`,
      `width` and `height`, in the order `read_mask_from_xml_item` reads them. */
  datatype Fields = Fields(rle: seq<int>, x: int, y: int, w: int, h: int)

  function ReadFields(attrs: Attrs): Result<Fields>
  {
    match ReadRle(attrs)
    case Err(e) => Err(e)
    case Ok(rle) =>
      match ReadRounded(attrs, "left")
      case Err(e) => Err(e)
      case Ok(x) =>
        match ReadRounded(attrs, "top")
        case Err(e) => Err(e)
        case Ok(y) =>
          match ReadRounded(attrs, "width")
          case Err(e) => Err(e)
          case Ok(w) =>
            match ReadRounded(attrs, "height")
            case Err(e) => Err(e)
            case Ok(h) => Ok(Fields(rle, x, y, w, h))
  }

  /** `read_mask_from_xml_item(item, img_h, img_w)` as a value. */
  function ReadMask(attrs: Attrs, imgH: int, imgW: int): (r: Result<Grid<bool>>)
    ensures r.Ok? ==> r.value.Valid() && r.value.h == imgH && r.value.w == imgW
  {
    match ReadFields(attrs)
    case Err(e) => Err(e)
    case Ok(f) =>
      match Decoded(f.rle, f.w, f.h)
      case Err(e) => Err(e)
      case Ok(d) =>
        if imgH < 0 || imgW < 0 then Err(ValueError)
        else Paste(imgH, imgW, f.y, f.x, Transpose(d))
  }

  /** `read_mask_from_xml_item(item, img_h, img_w)`: decodes the crop and
      writes it into a zero image by one slice assignment. */
  method ReadMaskFromItem(item: MaskItem, imgH: int, imgW: int) returns (r: Result<Grid<bool>>)
    ensures r == ReadMask(item.attrs, imgH, imgW)
  {
    var f := ReadFields(item.attrs);
    if f.Err? {
      return Err(f.error);
    }
    var d := RleToMask(f.value.rle, f.value.w, f.value.h);
    if d.Err? {
      return Err(d.error);
    }
    if imgH < 0 || imgW < 0 {
      return Err(ValueError);
    }
    r := PasteMethod(imgH, imgW, f.value.y, f.value.x, Transpose(d.value));
  }

  /** `full_mask = numpy.zeros((h, w)); full_mask[y:y+m.h, x:x+m.w] = m`. */
  method PasteMethod(h: nat, w: nat, y: int, x: int, m: Grid<bool>) returns (r: Result<Grid<bool>>)
    requires m.Valid()
    ensures r == Paste(h, w, y, x, m)
  {
    var rows := Slice(Some(y), Some(y + m.h), h);
    var cols := Slice(Some(x), Some(x + m.w), w);
    SliceWidth(y, m.h, h);
    SliceWidth(x, m.w, w);
    if !(Broadcasts(rows.1 - rows.0, m.h) && Broadcasts(cols.1 - cols.0, m.w)) {
      return Err(ValueError);
    }
    var full := new bool[h, w]((i, j) => false);
    PasteInto(full, rows.0, rows.1 - rows.0, cols.0, cols.1 - cols.0, m);
    var g := ToGrid(full);
    Extensional(g, Pasted(h, w, rows.0, rows.1 - rows.0, cols.0, cols.1 - cols.0, m));
    return Ok(g);
  }

  /** `full[r0:r0+rh, c0:c0+rw] = m[:rh, :rw]` on an all-false array. */
  method PasteInto(full: array2<bool>, r0: nat, rh: nat, c0: nat, rw: nat, m: Grid<bool>)
    requires m.Valid() && r0 + rh <= full.Length0 && c0 + rw <= full.Length1 && rh <= m.h && rw <= m.w
    requires forall i, j :: 0 <= i < full.Length0 && 0 <= j < full.Length1 ==> !full[i, j]
    modifies full
    ensures forall i: nat, j: nat :: i < full.Length0 && j < full.Length1 ==>
      full[i, j] == (r0 <= i < r0 + rh && c0 <= j < c0 + rw && m.At(i - r0, j - c0))
  {
    var a := 0;
    while a < rh
      invariant a <= rh
      invariant forall i: nat, j: nat :: i < full.Length0 && j < full.Length1 ==>
        full[i, j] == (r0 <= i < r0 + a && c0 <= j < c0 + rw && m.At(i - r0, j - c0))
    {
      var b := 0;
      while b < rw
        invariant b <= rw
        invariant forall i: nat, j: nat :: i < full.Length0 && j < full.Length1 ==>
          full[i, j] == (((r0 <= i < r0 + a && c0 <= j < c0 + rw) || (i == r0 + a && c0 <= j < c0 + b))
                         && m.At(i - r0, j - c0))
      {
        full[r0 + a, c0 + b] := m.At(a, b);
        b := b + 1;
      }
      a := a + 1;
    }
  }

  /** The grid holding the cells of a 2-D array. */
  method ToGrid(a: array2<bool>) returns (g: Grid<bool>)
    ensures g.Valid() && g.h == a.Length0 && g.w == a.Length1
    ensures forall i: nat, j: nat :: i < a.Length0 && j < a.Length1 ==> g.At(i, j) == a[i, j]
  {
    var h, w := a.Length0, a.Length1;
    g := Grid(h, w, seq(h * w, k requires 0 <= k < h * w reads a => Grids.Split(k, h, w); a[k % h, k / h]));
    forall i: nat, j: nat | i < h && j < w ensures g.At(i, j) == a[i, j] {
      Index(i, j, h, w);
      Unsplit(i, j, h);
    }
  }

  // ---- writing ----

  /** `", ".join(str(n) for n in rle)`. */
  function RleText(rle: seq<int>): string
  {
    Join(RunTexts(rle), RleSep)
  }

  function RunTexts(rle: seq<int>): (r: seq<string>)
    ensures |r| == |rle| && forall k :: 0 <= k < |rle| ==> r[k] == IntToDecimal(rle[k])
  {
    seq(|rle|, k requires 0 <= k < |rle| => IntToDecimal(rle[k]))
  }

  /** The box of the transpose, with its axes named back: the transpose's
      columns are the mask's rows. */
  function BoxOfTranspose(b: Box): Box
  {
    Box(b.y0, b.x0, b.y1, b.x1)
  }

  /** The crop `write_mask_to_xml_item` encodes: the bounding box of the
      transpose, i.e. the transposed bounding-box crop of the mask. */
  function WrittenCrop(mask: Grid<bool>, b: Box): (c: Grid<bool>)
    requires mask.Valid() && b.x0 < b.x1 <= mask.w && b.y0 < b.y1 <= mask.h
    ensures c.Valid() && c.h == b.x1 - b.x0 && c.w == b.y1 - b.y0 && c.h * c.w >= 1
  {
    MulAtLeast(b.y1 - b.y0, b.x1 - b.x0);
    Crop(Transpose(mask), b.x0, b.x1, b.y0, b.y1)
  }

  /** Lines 72-76 of `write_mask_to_xml_item`: the bounding box of the
      mask, found as the box of its transpose. */
  function WrittenBox(mask: Grid<bool>): (r: Result<Box>)
    requires mask.Valid()
    ensures r.Ok? ==> r.value.x0 < r.value.x1 <= mask.w && r.value.y0 < r.value.y1 <= mask.h
  {
    var t := Transpose(mask);
    match Bbox(t)
    case Err(e) => Err(e)
    case Ok(tb) =>
      BboxSpec(t);
      Ok(BoxOfTranspose(tb))
  }

  lemma AttrKeysDistinct()
    ensures "rle" != "left" && "rle" != "top" && "rle" != "width" && "rle" != "height"
    ensures "left" != "top" && "left" != "width" && "left" != "height"
    ensures "top" != "width" && "top" != "height" && "width" != "height"
  {
    assert "rle"[0] == 'r' && "left"[0] == 'l' && "top"[0] == 't' && "width"[0] == 'w' && "height"[0] == 'h';
  }

  /** The five `item.set` calls. */
  function SetAttrs(attrs: Attrs, text: string, b: Box): (a: Attrs)
    requires b.x0 <= b.x1 && b.y0 <= b.y1
    ensures a.Keys == attrs.Keys + {"rle", "left", "top", "width", "height"}
    ensures a["rle"] == text && a["left"] == IntToDecimal(b.x0) && a["top"] == IntToDecimal(b.y0)
    ensures a["width"] == IntToDecimal(b.x1 - b.x0) && a["height"] == IntToDecimal(b.y1 - b.y0)
    ensures forall k :: k in attrs && k !in {"rle", "left", "top", "width", "height"} ==> a[k] == attrs[k]
  {
    AttrKeysDistinct();
    attrs["rle" := text]
         ["left" := IntToDecimal(b.x0)]
         ["top" := IntToDecimal(b.y0)]
         ["width" := IntToDecimal(b.x1 - b.x0)]
         ["height" := IntToDecimal(b.y1 - b.y0)]
  }

  /** What `write_mask_to_xml_item` stores: the RLE text of the crop and the box. */
  function WrittenFields(mask: Grid<bool>): (r: Result<(string, Box)>)
    requires mask.Valid()
    ensures r.Ok? ==> r.value.1.x0 < r.value.1.x1 <= mask.w && r.value.1.y0 < r.value.1.y1 <= mask.h
  {
    match WrittenBox(mask)
    case Err(e) => Err(e)
    case Ok(b) => Ok((RleText(MaskToRle(WrittenCrop(mask, b)).value), b))
  }

  /** The attributes after `write_mask_to_xml_item(item, mask)`; an
      all-false mask is the IndexError raised by `mask_to_bbox` before any
      attribute is set. */
  function Written(attrs: Attrs, mask: Grid<bool>): (r: Result<Attrs>)
    requires mask.Valid()
  {
    match WrittenFields(mask)
    case Err(e) => Err(e)
    case Ok(f) => Ok(SetAttrs(attrs, f.0, f.1))
  }

  /** Lines 72-79 of `write_mask_to_xml_item`. */
  method ComputeFields(mask: Grid<bool>) returns (r: Result<(string, Box)>)
    requires mask.Valid()
    ensures r == WrittenFields(mask)
  {
    var t := Transpose(mask);
    var tb := MaskToBbox(t);
    if tb.Err? {
      return Err(tb.error);
    }
    var b := BoxOfTranspose(tb.value);
    assert WrittenBox(mask) == Ok(b);
    var crop := WrittenCrop(mask, b);
    var rle := MaskToRle(crop);
    return Ok((RleText(rle.value), b));
  }

  /** Lines 81-86 of `write_mask_to_xml_item`: the five `item.set` calls. */
  method Store(item: MaskItem, text: string, b: Box)
    requires b.x0 <= b.x1 && b.y0 <= b.y1
    modifies item
    ensures item.attrs == SetAttrs(old(item.attrs), text, b)
  {
    item.Set("rle", text);
    item.Set("left", IntToDecimal(b.x0));
    item.Set("top", IntToDecimal(b.y0));
    item.Set("width", IntToDecimal(b.x1 - b.x0));
    item.Set("height", IntToDecimal(b.y1 - b.y0));
  }

  /** `write_mask_to_xml_item(item, mask)`. The mask is a value, so the
      caller's mask is never changed (the source copies it first). */
  method WriteMaskToItem(item: MaskItem, mask: Grid<bool>) returns (r: Result<()>)
    requires mask.Valid()
    modifies item
    ensures match Written(old(item.attrs), mask)
      case Err(e) => r == Err(e) && item.attrs == old(item.attrs)
      case Ok(attrs) => r == Ok(()) && item.attrs == attrs
  {
    var f := ComputeFields(mask);
    if f.Err? {
      return Err(f.error);
    }
    Store(item, f.value.0, f.value.1);
    return Ok(());
  }

  // ---- properties ----

  lemma ColsOfTranspose(mask: Grid<bool>)
    requires mask.Valid()
    ensures AnyCols(Transpose(mask)) == AnyRows(mask)
    ensures AnyRows(Transpose(mask)) == AnyCols(mask)
  {
    var t := Transpose(mask);
    forall j | 0 <= j < mask.h ensures ColHasTrue(t, j) == RowHasTrue(mask, j) {
      if RowHasTrue(mask, j) {
        var i: nat :| i < mask.w && mask.At(j, i);
        assert t.At(i, j);
      }
    }
    forall i | 0 <= i < mask.w ensures RowHasTrue(t, i) == ColHasTrue(mask, i) {
      if ColHasTrue(mask, i) {
        var j: nat :| j < mask.h && mask.At(j, i);
        assert t.At(i, j);
      }
    }
  }

  /** The box found on the transpose is the mask's own bounding box. */
  lemma WrittenBoxIsBbox(mask: Grid<bool>)
    requires mask.Valid()
    ensures WrittenBox(mask) == Bbox(mask)
  {
    var t := Transpose(mask);
    var cols, rows := AnyCols(mask), AnyRows(mask);
    assert AnyCols(t) == rows && AnyRows(t) == cols by { ColsOfTranspose(mask); }
    BboxOfProfiles(mask, cols, rows);
    BboxOfProfiles(t, rows, cols);
    if First(cols).None? {
      RowsOfAllFalseCols(mask);
    } else {
      RowsNotAllFalse(mask, First(cols).value);
    }
  }

  /** No true column means no true row. */
  lemma RowsOfAllFalseCols(mask: Grid<bool>)
    requires mask.Valid() && First(AnyCols(mask)).None?
    ensures First(AnyRows(mask)).None?
  {
    forall i | 0 <= i < mask.h ensures !AnyRows(mask)[i] {
      forall j: nat | j < mask.w ensures !mask.At(i, j) {
        assert !AnyCols(mask)[j];
      }
    }
  }

  /** Writing fails, with IndexError, exactly on an all-false mask. */
  lemma WrittenFails(attrs: Attrs, mask: Grid<bool>)
    requires mask.Valid()
    ensures Written(attrs, mask).Err? <==> AllFalse(mask)
    ensures Written(attrs, mask).Err? ==> Written(attrs, mask).error == IndexError
  {
    WrittenBoxIsBbox(mask);
    BboxSpec(mask);
  }

  /** A successful write sets `left`, `top`, `width` and `height` to the
      mask's bounding box and `rle` to the text of the crop's runs, and keeps
      every other attribute (see the contract of `SetAttrs`). */
  lemma WrittenAttrs(attrs: Attrs, mask: Grid<bool>)
    requires mask.Valid() && Written(attrs, mask).Ok?
    ensures Bbox(mask).Ok?
    ensures var b := Bbox(mask).value;
      b.x0 < b.x1 <= mask.w && b.y0 < b.y1 <= mask.h &&
      Written(attrs, mask) == Ok(SetAttrs(attrs, RleText(MaskToRle(WrittenCrop(mask, b)).value), b))
  {
    WrittenBoxIsBbox(mask);
  }

  /** Every run's text is free of `,`, so splitting the joined text on `", "`
      gives the run texts back, and they parse to the runs. */
  lemma ParseRunTexts(rle: seq<int>)
    ensures ParseInts(RunTexts(rle)) == Ok(rle)
  {
    var parts := RunTexts(rle);
    forall k | 0 <= k < |rle| ensures ParseInt(parts[k]) == Ok(rle[k]) {
      ParseIntToDecimal(rle[k]);
    }
    ParseIntsAll(parts, rle);
  }

  /** Texts that each parse read back as the list of their values. */
  lemma {:induction false} ParseIntsAll(parts: seq<string>, vs: seq<int>)
    requires |parts| == |vs| && forall k :: 0 <= k < |parts| ==> ParseInt(parts[k]) == Ok(vs[k])
    ensures ParseInts(parts) == Ok(vs)
  {
    if parts != [] {
      ParseIntsAll(parts[1..], vs[1..]);
      ParseIntsCons(parts[0], parts[1..], vs[0], vs[1..]);
      assert [parts[0]] + parts[1..] == parts;
      assert [vs[0]] + vs[1..] == vs;
    }
  }

  lemma ParseIntsCons(p: string, ps: seq<string>, v: int, vs: seq<int>)
    requires ParseInt(p) == Ok(v) && ParseInts(ps) == Ok(vs)
    ensures ParseInts([p] + ps) == Ok([v] + vs)
  {
    assert ([p] + ps)[1..] == ps;
  }

  lemma ReadRleText(attrs: Attrs, rle: seq<int>)
    requires |rle| >= 1 && "rle" in attrs && attrs["rle"] == RleText(rle)
    ensures ReadRle(attrs) == Ok(rle)
  {
    var parts := RunTexts(rle);
    forall k | 0 <= k < |parts| ensures Avoids(parts[k], ',') {
      assert parts[k] == IntToDecimal(rle[k]);
    }
    SplitJoin(parts, RleSep);
    ParseRunTexts(rle);
  }

  /** The five attributes `ReadFields` reads, read one by one. */
  predicate FiveRead(a: Attrs, rle: seq<int>, x: int, y: int, w: int, h: int)
  {
    ReadRle(a) == Ok(rle) && ReadRounded(a, "left") == Ok(x) && ReadRounded(a, "top") == Ok(y) &&
    ReadRounded(a, "width") == Ok(w) && ReadRounded(a, "height") == Ok(h)
  }

  /** `ReadFields` from the five attributes it reads. */
  lemma ReadFieldsOf(a: Attrs, rle: seq<int>, x: int, y: int, w: int, h: int)
    requires FiveRead(a, rle, x, y, w, h)
    ensures ReadFields(a) == Ok(Fields(rle, x, y, w, h))
  {
  }

  /** `round(float(str(n))) == n`. */
  lemma ReadRoundedText(attrs: Attrs, key: string, n: nat)
    requires key in attrs && attrs[key] == IntToDecimal(n)
    ensures ReadRounded(attrs, key) == Ok(n)
  {
    ParseRealToDecimal(n);
    RoundOfInt(n);
  }

  /** Reading the five attributes of `SetAttrs` gives back the runs and the box. */
  lemma ReadSetAttrs(attrs: Attrs, rle: seq<int>, b: Box)
    requires |rle| >= 1 && b.x0 <= b.x1 && b.y0 <= b.y1
    ensures ReadFields(SetAttrs(attrs, RleText(rle), b)) == Ok(Fields(rle, b.x0, b.y0, b.x1 - b.x0, b.y1 - b.y0))
  {
    var a := SetAttrs(attrs, RleText(rle), b);
    ReadAttrs(a, rle, b);
  }

  lemma ReadAttrs(a: Attrs, rle: seq<int>, b: Box)
    requires |rle| >= 1 && b.x0 <= b.x1 && b.y0 <= b.y1
    requires a.Keys >= {"rle", "left", "top", "width", "height"}
    requires a["rle"] == RleText(rle) && a["left"] == IntToDecimal(b.x0) && a["top"] == IntToDecimal(b.y0)
    requires a["width"] == IntToDecimal(b.x1 - b.x0) && a["height"] == IntToDecimal(b.y1 - b.y0)
    ensures ReadFields(a) == Ok(Fields(rle, b.x0, b.y0, b.x1 - b.x0, b.y1 - b.y0))
  {
    var w, h := b.x1 - b.x0, b.y1 - b.y0;
    assert FiveRead(a, rle, b.x0, b.y0, w, h) by {
      ReadRleText(a, rle);
      ReadRoundedText(a, "left", b.x0);
      ReadRoundedText(a, "top", b.y0);
      ReadRoundedText(a, "width", w);
      ReadRoundedText(a, "height", h);
    }
    ReadFieldsOf(a, rle, b.x0, b.y0, w, h);
  }

  /** Reading back what was written, with the mask's own height and width,
      gives the mask: the box crop holds every true cell. */
  lemma WriteReadRoundTrip(attrs: Attrs, mask: Grid<bool>)
    requires mask.Valid() && !AllFalse(mask)
    ensures Written(attrs, mask).Ok?
    ensures ReadMask(Written(attrs, mask).value, mask.h, mask.w) == Ok(mask)
  {
    WrittenFails(attrs, mask);
    WrittenAttrs(attrs, mask);
    BboxSpec(mask);
    var b := Bbox(mask).value;
    RoundTripAt(attrs, Written(attrs, mask).value, mask, b);
  }

  /** The box `b` lies inside `mask` and holds each of its true cells. */
  predicate Encloses(mask: Grid<bool>, b: Box)
    requires mask.Valid()
  {
    b.x0 < b.x1 <= mask.w && b.y0 < b.y1 <= mask.h &&
    forall i: nat, j: nat :: i < mask.h && j < mask.w && mask.At(i, j) ==>
      b.y0 <= i < b.y1 && b.x0 <= j < b.x1
  }

  lemma RoundTripAt(attrs: Attrs, a: Attrs, mask: Grid<bool>, b: Box)
    requires mask.Valid() && Encloses(mask, b)
    requires a == SetAttrs(attrs, RleText(MaskToRle(WrittenCrop(mask, b)).value), b)
    ensures ReadMask(a, mask.h, mask.w) == Ok(mask)
  {
    var crop := WrittenCrop(mask, b);
    var rle := MaskToRle(crop).value;
    var f := Fields(rle, b.x0, b.y0, b.x1 - b.x0, b.y1 - b.y0);
    assert Decoded(f.rle, f.w, f.h) == Ok(crop) by {
      RoundTrip(crop);
    }
    assert ReadFields(a) == Ok(f) by {
      assert |rle| >= 1;
      ReadSetAttrs(attrs, rle, b);
    }
    assert Paste(mask.h, mask.w, f.y, f.x, Transpose(crop)) == Ok(mask) by {
      PlaceCrop(mask, b, crop);
    }
    ReadMaskOfFields(a, f, mask.h, mask.w, crop, Ok(mask));
  }

  /** `read_mask_from_xml_item` in stages: fields, decoding, pasting. */
  lemma ReadMaskOfFields(a: Attrs, f: Fields, h: nat, w: nat, crop: Grid<bool>, res: Result<Grid<bool>>)
    requires ReadFields(a) == Ok(f)
    requires Decoded(f.rle, f.w, f.h) == Ok(crop)
    requires Paste(h, w, f.y, f.x, Transpose(crop)) == res
    ensures ReadMask(a, h, w) == res
  {
  }

  /** Pasting the transposed crop back at the box gives the mask. */
  lemma PlaceCrop(mask: Grid<bool>, b: Box, crop: Grid<bool>)
    requires mask.Valid() && Encloses(mask, b) && crop == WrittenCrop(mask, b)
    ensures Paste(mask.h, mask.w, b.y0, b.x0, Transpose(crop)) == Ok(mask)
  {
    CropOfTranspose(mask, b, crop);
    PasteCrop(mask, b, Transpose(crop));
  }

  lemma CropOfTranspose(mask: Grid<bool>, b: Box, crop: Grid<bool>)
    requires mask.Valid() && b.x0 < b.x1 <= mask.w && b.y0 < b.y1 <= mask.h
    requires crop == WrittenCrop(mask, b)
    ensures Transpose(crop) == Crop(mask, b.y0, b.y1, b.x0, b.x1)
  {
    CropTranspose(Transpose(mask), b.x0, b.x1, b.y0, b.y1);
    TransposeTwice(mask);
    TransposeTwice(Crop(mask, b.y0, b.y1, b.x0, b.x1));
  }

  /** Writing the box's own crop into an empty image restores `mask`. */
  lemma PasteCrop(mask: Grid<bool>, b: Box, m: Grid<bool>)
    requires mask.Valid() && Encloses(mask, b)
    requires m == Crop(mask, b.y0, b.y1, b.x0, b.x1)
    ensures Paste(mask.h, mask.w, b.y0, b.x0, m) == Ok(mask)
  {
    SliceInRange(b.y0, b.y1, mask.h);
    SliceInRange(b.x0, b.x1, mask.w);
    var g := Paste(mask.h, mask.w, b.y0, b.x0, m).value;
    forall i: nat, j: nat | i < mask.h && j < mask.w ensures g.At(i, j) == mask.At(i, j) {
    }
    Extensional(g, mask);
  }
}
