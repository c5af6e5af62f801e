/**
 * What the AddField action writes for a new field: the normalised type, the
 * defaults of its options, the `/V` rule, and the two dictionaries it builds
 * (the field and its widget annotation), each as a list of `  /Key value`
 * lines between `<<` and `>>`.
 */
module Builders {
  import opened Wrappers
  import opened Text
  import opened Numerals
  import opened Patterns
  import opened Ledger
  import opened Format

  /** The `metadata:` hash, in its insertion order; a Ruby hash has each key once. */
  type Metadata = seq<(RubyName, MetaValue)>

  /** The options hash of `AddField.new(document, name, options)`; `None` is an absent key or nil. */
  datatype Options = Options(
    x: Option<int>,
    y: Option<int>,
    width: Option<int>,
    height: Option<int>,
    page: Option<int>,
    fieldType: Option<RubyName>,
    value: Option<string>,
    metadata: Option<Metadata>)

  /** The `case type_input` of the action: the listed aliases name a PDF field type, anything else is kept as text. */
  function NormalizeType(t: RubyName): string {
    match t
    case Sym(n) =>
      if n == "text" then "/Tx"
      else if n == "button" then "/Btn"
      else if n == "choice" then "/Ch"
      else if n == "signature" then "/Sig"
      else n
    case Str(n) =>
      if n in {"text", "/Tx", "/tx"} then "/Tx"
      else if n in {"button", "/Btn", "/btn"} then "/Btn"
      else if n in {"choice", "/Ch", "/ch"} then "/Ch"
      else if n in {"signature", "/Sig", "/sig"} then "/Sig"
      else n
  }

  /** `t` is one of the forms listed in the action's `when` clauses. */
  predicate IsTypeAlias(t: RubyName) {
    t in {Sym("text"), Str("text"), Str("/Tx"), Str("/tx"),
          Sym("button"), Str("button"), Str("/Btn"), Str("/btn"),
          Sym("choice"), Str("choice"), Str("/Ch"), Str("/ch"),
          Sym("signature"), Str("signature"), Str("/Sig"), Str("/sig")}
  }

  /**
   * Exactly the listed aliases, and the symbol spelling of the PDF name itself
   * (whose `to_s` is that name), normalise to each field type.
   */
  lemma NormalizeTypeIff(t: RubyName)
    ensures NormalizeType(t) == "/Tx" <==> t in {Sym("text"), Str("text"), Str("/Tx"), Str("/tx"), Sym("/Tx")}
    ensures NormalizeType(t) == "/Btn" <==> t in {Sym("button"), Str("button"), Str("/Btn"), Str("/btn"), Sym("/Btn")}
    ensures NormalizeType(t) == "/Ch" <==> t in {Sym("choice"), Str("choice"), Str("/Ch"), Str("/ch"), Sym("/Ch")}
    ensures NormalizeType(t) == "/Sig" <==> t in {Sym("signature"), Str("signature"), Str("/Sig"), Str("/sig"), Sym("/Sig")}
  {
  }

  /** Any other input is passed through as its `to_s`: there is no further case folding. */
  lemma NormalizeTypePassesThrough(t: RubyName)
    requires !IsTypeAlias(t)
    ensures NormalizeType(t) == t.ToS()
  {
  }

  /** The option values after the action's `||` defaults. */
  datatype Settings = Settings(x: int, y: int, width: int, height: int, page: int, fieldType: string, value: string)

  function Resolve(o: Options): Settings {
    Settings(o.x.GetOr(100), o.y.GetOr(500), o.width.GetOr(100), o.height.GetOr(20), o.page.GetOr(1),
             NormalizeType(o.fieldType.GetOr(Str("/Tx"))), o.value.GetOr(""))
  }

  /** With no options a text field of 100 by 20 at (100, 500) on page 1 with an empty value is added. */
  lemma ResolveDefaults(o: Options)
    requires o.x.None? && o.y.None? && o.width.None? && o.height.None? && o.page.None?
    requires o.fieldType.None? && o.value.None?
    ensures Resolve(o) == Settings(100, 500, 100, 20, 1, "/Tx", "")
  {
  }

  /** A given option is used as it is (the type after normalisation). */
  lemma ResolveKeepsGiven(o: Options)
    ensures o.x.Some? ==> Resolve(o).x == o.x.value
    ensures o.y.Some? ==> Resolve(o).y == o.y.value
    ensures o.width.Some? ==> Resolve(o).width == o.width.value
    ensures o.height.Some? ==> Resolve(o).height == o.height.value
    ensures o.page.Some? ==> Resolve(o).page == o.page.value
    ensures o.fieldType.Some? ==> Resolve(o).fieldType == NormalizeType(o.fieldType.value)
    ensures o.value.Some? ==> Resolve(o).value == o.value.value
  {
  }

  /** `should_set_value` of both builders. */
  predicate ShouldSetValue(fieldType: string, value: string) {
    if fieldType == "/Sig" && value != "" then !LooksLikeImageData(value) else true
  }

  /** Both builders write `/V` exactly when this holds. */
  predicate WritesValue(fieldType: string, value: string) {
    ShouldSetValue(fieldType, value) && value != ""
  }

  /** The condition under which `call` hands the value to the signature-appearance action. */
  predicate WantsAppearance(fieldType: string, value: string) {
    fieldType == "/Sig" && value != "" && LooksLikeImageData(value)
  }

  /**
   * `/V` is written iff the value is non-empty and it is not image data for a
   * signature; for a non-empty value this is exactly the negation of the
   * condition that asks for a signature appearance.
   */
  lemma WritesValueIff(fieldType: string, value: string)
    ensures WritesValue(fieldType, value) <==> value != "" && !(fieldType == "/Sig" && LooksLikeImageData(value))
    ensures value != "" ==> (WritesValue(fieldType, value) <==> !WantsAppearance(fieldType, value))
    ensures LooksLikeImageData(value) <==>
      StartsWith(value, "data:image/") ||
      (|value| > 50 && exists q :: IsLineStart(value, q) && Base64Line(LineAt(value, q)))
  {
    SomeBase64LineIff(value);
  }

  /** One `  /Key value` line of a dictionary body. */
  datatype Entry = Entry(key: string, value: string)

  function Line(e: Entry): string { "  " + e.key + " " + e.value + "\n" }

  function Lines(es: seq<Entry>): string {
    if es == [] then "" else Lines(es[..|es| - 1]) + Line(es[|es| - 1])
  }

  /** The text of a dictionary as both builders write it. */
  function RenderDict(es: seq<Entry>): string { "<<\n" + Lines(es) + ">>" }

  lemma {:induction false} LinesConcat(a: seq<Entry>, b: seq<Entry>)
    ensures Lines(a + b) == Lines(a) + Lines(b)
    decreases |b|
  {
    if b != [] {
      assert (a + b)[..|a + b| - 1] == a + b[..|b| - 1];
      assert (a + b)[|a + b| - 1] == b[|b| - 1];
      LinesConcat(a, b[..|b| - 1]);
    } else {
      assert a + b == a;
    }
  }

  /** One more entry adds its line at the end. */
  lemma LinesSnoc(es: seq<Entry>, e: Entry)
    ensures Lines(es + [e]) == Lines(es) + Line(e)
  {
    assert (es + [e])[..|es|] == es;
  }

  /** Text already written followed by the lines of `es` grows by one line per entry. */
  lemma AppendLine(pre: string, es: seq<Entry>, e: Entry)
    ensures pre + Lines(es) + Line(e) == pre + Lines(es + [e])
  {
    LinesSnoc(es, e);
  }

  /** Text already written followed by the lines of `a` and then of `b` is followed by the lines of `a + b`. */
  lemma AppendLines(pre: string, a: seq<Entry>, b: seq<Entry>)
    ensures pre + Lines(a) + Lines(b) == pre + Lines(a + b)
  {
    LinesConcat(a, b);
  }

  /** Every entry's line is part of the rendered dictionary. */
  lemma EntryShown(es: seq<Entry>, i: int)
    requires 0 <= i < |es|
    ensures Contains(RenderDict(es), Line(es[i]))
  {
    assert es == es[..i] + [es[i]] + es[i + 1..];
    LinesConcat(es[..i] + [es[i]], es[i + 1..]);
    LinesConcat(es[..i], [es[i]]);
    assert [es[i]][..0] == [];
    var d := RenderDict(es);
    var p := 3 + |Lines(es[..i])|;
    assert d[p..p + |Line(es[i])|] == Line(es[i]);
    OccursAtContains(d, Line(es[i]), p);
  }

  /** How many entries have key `k`. */
  function KeyCount(es: seq<Entry>, k: string): nat {
    if es == [] then 0 else KeyCount(es[..|es| - 1], k) + (if es[|es| - 1].key == k then 1 else 0)
  }

  lemma {:induction false} KeyCountConcat(a: seq<Entry>, b: seq<Entry>, k: string)
    ensures KeyCount(a + b, k) == KeyCount(a, k) + KeyCount(b, k)
    decreases |b|
  {
    if b != [] {
      assert (a + b)[..|a + b| - 1] == a + b[..|b| - 1];
      assert (a + b)[|a + b| - 1] == b[|b| - 1];
      KeyCountConcat(a, b[..|b| - 1], k);
    } else {
      assert a + b == a;
    }
  }

  lemma {:induction false} KeyCountZero(es: seq<Entry>, k: string)
    ensures KeyCount(es, k) == 0 <==> forall i :: 0 <= i < |es| ==> es[i].key != k
  {
    if es != [] {
      KeyCountZero(es[..|es| - 1], k);
      var init := es[..|es| - 1];
      assert forall i :: 0 <= i < |init| ==> init[i] == es[i];
    }
  }

  /** The keys `:Ff` and `"Ff"` that the field builder handles itself. */
  predicate IsFfKey(k: RubyName) { k == Sym("Ff") || k == Str("Ff") }

  /** `metadata[key]`. */
  function HashGet(md: Metadata, key: RubyName): (r: Option<MetaValue>)
    ensures r.None? <==> forall i :: 0 <= i < |md| ==> md[i].0 != key
    ensures r.Some? ==> exists i :: 0 <= i < |md| && md[i] == (key, r.value)
  {
    if md == [] then None
    else if md[0].0 == key then Some(md[0].1)
    else
      var r := HashGet(md[1..], key);
      assert r.Some? ==> exists i :: 0 <= i < |md[1..]| && md[1..][i] == (key, r.value);
      assert forall i :: 0 <= i < |md[1..]| ==> md[1..][i] == md[i + 1];
      r
  }

  /** `@metadata[:Ff] || @metadata["Ff"] || 0`. */
  function FieldFlags(md: Metadata): MetaValue {
    HashGet(md, Sym("Ff")).GetOr(HashGet(md, Str("Ff")).GetOr(Int(0)))
  }

  /** The flags come from `:Ff`, else from `"Ff"`, else they are 0. */
  lemma FieldFlagsSource(md: Metadata)
    ensures (forall i :: 0 <= i < |md| ==> !IsFfKey(md[i].0)) ==> FieldFlags(md) == Int(0)
    ensures (exists i :: 0 <= i < |md| && md[i].0 == Sym("Ff")) ==>
      exists i :: 0 <= i < |md| && md[i] == (Sym("Ff"), FieldFlags(md))
    ensures (forall i :: 0 <= i < |md| ==> md[i].0 != Sym("Ff")) && (exists i :: 0 <= i < |md| && md[i].0 == Str("Ff")) ==>
      exists i :: 0 <= i < |md| && md[i] == (Str("Ff"), FieldFlags(md))
  {
  }

  /** A metadata pair the builder copies: the field builder skips the `Ff` keys, the widget builder keys that format to `/F` or `/V`. */
  predicate Copied(p: (RubyName, MetaValue), widget: bool) {
    if widget then FormatPdfKey(p.0) != "/F" && FormatPdfKey(p.0) != "/V" else !IsFfKey(p.0)
  }

  /** The lines the `@metadata.each` loop of a builder adds. */
  function MetaEntries(encode: string -> string, md: Metadata, widget: bool): seq<Entry> {
    if md == [] then []
    else MetaEntries(encode, md[..|md| - 1], widget) + MetaEntry(encode, md[|md| - 1], widget)
  }

  function MetaEntry(encode: string -> string, p: (RubyName, MetaValue), widget: bool): seq<Entry> {
    if Copied(p, widget) then [Entry(FormatPdfKey(p.0), FormatPdfValue(encode, p.1))] else []
  }

  /** One turn of a builder's `@metadata.each` loop adds the pair's line when the pair is copied. */
  lemma MetaLoopStep(encode: string -> string, md: Metadata, i: int, widget: bool, dict: string, head: string)
    requires 0 <= i < |md|
    requires dict == head + Lines(MetaEntries(encode, md[..i], widget))
    ensures (if Copied(md[i], widget) then dict + Line(Entry(FormatPdfKey(md[i].0), FormatPdfValue(encode, md[i].1))) else dict)
      == head + Lines(MetaEntries(encode, md[..i + 1], widget))
  {
    MetaEntriesSnoc(encode, md, i, widget);
    AppendOptionalLine(MetaEntries(encode, md[..i], widget), MetaEntry(encode, md[i], widget), dict, head);
  }

  /** The metadata lines of one more pair are those of the pairs before it and then its own. */
  lemma MetaEntriesSnoc(encode: string -> string, md: Metadata, i: int, widget: bool)
    requires 0 <= i < |md|
    ensures MetaEntries(encode, md[..i + 1], widget) == MetaEntries(encode, md[..i], widget) + MetaEntry(encode, md[i], widget)
  {
    assert md[..i + 1][..i] == md[..i];
  }

  /** Writing at most one more line, when there is one, is writing the lines of `es + e`. */
  lemma AppendOptionalLine(es: seq<Entry>, e: seq<Entry>, dict: string, head: string)
    requires |e| <= 1
    requires dict == head + Lines(es)
    ensures (if e != [] then dict + Line(e[0]) else dict) == head + Lines(es + e)
  {
    if e != [] {
      LinesSnoc(es, e[0]);
      assert e == [e[0]];
    } else {
      assert es + e == es;
    }
  }

  /** The metadata lines have key `k` iff some copied pair's key formats to `k`. */
  lemma {:induction false} MetaKeyCount(encode: string -> string, md: Metadata, widget: bool, k: string)
    ensures KeyCount(MetaEntries(encode, md, widget), k) == 0 <==>
      forall i :: 0 <= i < |md| && Copied(md[i], widget) ==> FormatPdfKey(md[i].0) != k
  {
    if md != [] {
      var init := md[..|md| - 1];
      MetaKeyCount(encode, init, widget, k);
      KeyCountConcat(MetaEntries(encode, init, widget), MetaEntry(encode, md[|md| - 1], widget), k);
      assert forall i :: 0 <= i < |init| ==> init[i] == md[i];
    }
  }

  /** The widget builder never copies a `/F` or `/V` line from the metadata. */
  lemma WidgetMetaSkipsFAndV(encode: string -> string, md: Metadata)
    ensures KeyCount(MetaEntries(encode, md, true), "/F") == 0
    ensures KeyCount(MetaEntries(encode, md, true), "/V") == 0
  {
    MetaKeyCount(encode, md, true, "/F");
    MetaKeyCount(encode, md, true, "/V");
  }

  const HelvAppearance := "(/Helv 0 Tf 0 g)"

  /** `"#{num} #{gen} R"`. */
  function RefText(r: Ref): string { IntToString(r.num) + " " + IntToString(r.gen) + " R" }

  /** `"[#{x} #{y} #{x + width} #{y + height}]"`: the four numbers, space-separated, in brackets. */
  function RectText(x: int, y: int, width: int, height: int): string {
    "[" + Join([IntToString(x), IntToString(y), IntToString(x + width), IntToString(y + height)], " ") + "]"
  }

  /** The rectangle reads back as its lower-left and upper-right corners. */
  lemma RectReadsBack(x: int, y: int, width: int, height: int)
    ensures ParseIntArray(RectText(x, y, width, height)) == Some([x, y, x + width, y + height])
  {
    var xs := [x, y, x + width, y + height];
    var texts := seq(|xs|, k requires 0 <= k < |xs| => IntToString(xs[k]));
    var a, b, c, d := IntToString(x), IntToString(y), IntToString(x + width), IntToString(y + height);
    assert texts == [a, b, c, d];
    IntTextsRoundTrip(xs);
  }

  /** The `/V` line both builders write for a value. */
  function ValueEntry(encode: string -> string, fieldType: string, value: string): seq<Entry> {
    if WritesValue(fieldType, value) then [Entry("/V", encode(value))] else []
  }

  /** The lines `create_field_dictionary` writes before the metadata. */
  function FieldHead(encode: string -> string, name: string, md: Metadata, fieldType: string, value: string): seq<Entry> {
    [Entry("/FT", fieldType), Entry("/T", encode(name)),
     Entry("/Ff", InterpolatedText(encode, FieldFlags(md))), Entry("/DA", HelvAppearance)]
    + ValueEntry(encode, fieldType, value)
  }

  /** The lines of `create_field_dictionary(value, type)`. */
  function FieldEntries(encode: string -> string, name: string, md: Metadata, fieldType: string, value: string): seq<Entry> {
    FieldHead(encode, name, md, fieldType, value) + MetaEntries(encode, md, false)
  }

  /** The lines `create_widget_annotation_with_parent` writes before the metadata. */
  function WidgetHead(encode: string -> string, parent: Ref, page: Option<Ref>, rect: string, fieldType: string, value: string): seq<Entry> {
    [Entry("/Type", "/Annot"), Entry("/Subtype", "/Widget"), Entry("/Parent", RefText(parent))]
    + (if page.Some? then [Entry("/P", RefText(page.value))] else [])
    + [Entry("/FT", fieldType), Entry("/Rect", rect), Entry("/F", "4"), Entry("/DA", HelvAppearance)]
    + ValueEntry(encode, fieldType, value)
  }

  /** The lines of `create_widget_annotation_with_parent(..., parent_ref, page_ref, x, y, width, height, type, value)`. */
  function WidgetEntries(encode: string -> string, md: Metadata, parent: Ref, page: Option<Ref>,
                         x: int, y: int, width: int, height: int, fieldType: string, value: string): seq<Entry> {
    WidgetHead(encode, parent, page, RectText(x, y, width, height), fieldType, value) + MetaEntries(encode, md, true)
  }

  /** A single entry gives a single line. */
  lemma LinesOne(e: Entry)
    ensures Lines([e]) == Line(e)
  {
    assert [e][..0] == [];
  }

  /** Four lines written one after the other are the lines of the four entries. */
  lemma AppendLine4(pre: string, e0: Entry, e1: Entry, e2: Entry, e3: Entry)
    ensures pre + Line(e0) + Line(e1) + Line(e2) + Line(e3) == pre + Lines([e0, e1, e2, e3])
  {
    LinesOne(e0);
    AppendLine(pre, [e0], e1);
    assert [e0] + [e1] == [e0, e1];
    AppendLine(pre, [e0, e1], e2);
    assert [e0, e1] + [e2] == [e0, e1, e2];
    AppendLine(pre, [e0, e1, e2], e3);
    assert [e0, e1, e2] + [e3] == [e0, e1, e2, e3];
  }

  /**
   * A dictionary written as four lines, then the lines of `ve` and of `me`,
   * closed by `>>`: the shape of `create_field_dictionary`.
   */
  lemma DictText4(e0: Entry, e1: Entry, e2: Entry, e3: Entry, ve: seq<Entry>, me: seq<Entry>, head: string, body: string)
    requires head == "<<\n" + Line(e0) + Line(e1) + Line(e2) + Line(e3)
    requires body == head + Lines(ve) + Lines(me)
    ensures body + ">>" == RenderDict(([e0, e1, e2, e3] + ve) + me)
  {
    AppendLine4("<<\n", e0, e1, e2, e3);
    AppendLines("<<\n", [e0, e1, e2, e3], ve);
    AppendLines("<<\n", [e0, e1, e2, e3] + ve, me);
  }

  /**
   * A dictionary written as three lines, the optional line `p`, four lines,
   * then the lines of `ve` and of `me`, closed by `>>`: the shape of
   * `create_widget_annotation_with_parent`.
   */
  lemma DictText34(a0: Entry, a1: Entry, a2: Entry, p: seq<Entry>, b0: Entry, b1: Entry, b2: Entry, b3: Entry,
                   ve: seq<Entry>, me: seq<Entry>, top: string, head: string, body: string)
    requires top == "<<\n" + Line(a0) + Line(a1) + Line(a2)
    requires head == top + Lines(p) + Line(b0) + Line(b1) + Line(b2) + Line(b3)
    requires body == head + Lines(ve) + Lines(me)
    ensures body + ">>" == RenderDict(((([a0, a1, a2] + p) + [b0, b1, b2, b3]) + ve) + me)
  {
    var a := [a0, a1, a2];
    LinesOne(a0);
    AppendLine("<<\n", [a0], a1);
    assert [a0] + [a1] == [a0, a1];
    AppendLine("<<\n", [a0, a1], a2);
    assert [a0, a1] + [a2] == a;
    AppendLines("<<\n", a, p);
    var ap := "<<\n" + Lines(a + p);
    AppendLine4(ap, b0, b1, b2, b3);
    AppendLines("<<\n", a + p, [b0, b1, b2, b3]);
    AppendLines("<<\n", (a + p) + [b0, b1, b2, b3], ve);
    AppendLines("<<\n", ((a + p) + [b0, b1, b2, b3]) + ve, me);
  }

  /**
   * The field dictionary names its type and encoded name, carries its flags
   * once unless a metadata key other than `:Ff`/`"Ff"` also formats to `/Ff`,
   * and has `/V` iff the value is written or a copied metadata key formats to `/V`.
   */
  lemma FieldEntriesFacts(encode: string -> string, name: string, md: Metadata, fieldType: string, value: string)
    ensures var es := FieldEntries(encode, name, md, fieldType, value);
      es[0] == Entry("/FT", fieldType) && es[1] == Entry("/T", encode(name)) &&
      es[2] == Entry("/Ff", InterpolatedText(encode, FieldFlags(md))) &&
      (WritesValue(fieldType, value) ==> es[4] == Entry("/V", encode(value))) &&
      (KeyCount(es, "/Ff") == 1 <==> forall i :: 0 <= i < |md| && !IsFfKey(md[i].0) ==> FormatPdfKey(md[i].0) != "/Ff") &&
      (KeyCount(es, "/V") > 0 <==>
        (WritesValue(fieldType, value) ||
         exists i :: 0 <= i < |md| && !IsFfKey(md[i].0) && FormatPdfKey(md[i].0) == "/V"))
  {
    var head := FieldHead(encode, name, md, fieldType, value);
    var meta := MetaEntries(encode, md, false);
    KeyCountConcat(head, meta, "/Ff");
    KeyCountConcat(head, meta, "/V");
    MetaKeyCount(encode, md, false, "/Ff");
    MetaKeyCount(encode, md, false, "/V");
    HeadCounts(encode, name, md, fieldType, value);
  }

  lemma HeadCounts(encode: string -> string, name: string, md: Metadata, fieldType: string, value: string)
    ensures KeyCount(FieldHead(encode, name, md, fieldType, value), "/Ff") == 1
    ensures KeyCount(FieldHead(encode, name, md, fieldType, value), "/V") == if WritesValue(fieldType, value) then 1 else 0
  {
    var e0, e1 := Entry("/FT", fieldType), Entry("/T", encode(name));
    var e2, e3 := Entry("/Ff", InterpolatedText(encode, FieldFlags(md))), Entry("/DA", HelvAppearance);
    var v := ValueEntry(encode, fieldType, value);
    KeyCount4(e0, e1, e2, e3, "/Ff");
    KeyCount4(e0, e1, e2, e3, "/V");
    KeyCountConcat([e0, e1, e2, e3], v, "/Ff");
    KeyCountConcat([e0, e1, e2, e3], v, "/V");
    if v != [] { KeyCountOne(v[0], "/Ff"); KeyCountOne(v[0], "/V"); }
  }

  function Hit(e: Entry, k: string): nat { if e.key == k then 1 else 0 }

  lemma KeyCountOne(e: Entry, k: string)
    ensures KeyCount([e], k) == Hit(e, k)
  {
    assert [e][..0] == [];
  }

  lemma KeyCount3(e0: Entry, e1: Entry, e2: Entry, k: string)
    ensures KeyCount([e0, e1, e2], k) == Hit(e0, k) + Hit(e1, k) + Hit(e2, k)
  {
    KeyCountOne(e0, k);
    assert [e0, e1][..1] == [e0];
    assert KeyCount([e0, e1], k) == Hit(e0, k) + Hit(e1, k);
    assert [e0, e1, e2][..2] == [e0, e1];
  }

  lemma KeyCount4(e0: Entry, e1: Entry, e2: Entry, e3: Entry, k: string)
    ensures KeyCount([e0, e1, e2, e3], k) == Hit(e0, k) + Hit(e1, k) + Hit(e2, k) + Hit(e3, k)
  {
    KeyCount3(e0, e1, e2, k);
    assert [e0, e1, e2, e3][..3] == [e0, e1, e2];
  }

  /**
   * The widget names its parent, has `/P` for the page when there is one (and
   * otherwise only when metadata supplies it), has its `/Rect` and `/F 4`
   * exactly once, and has `/V` iff the value is written.
   */
  lemma WidgetEntriesFacts(encode: string -> string, md: Metadata, parent: Ref, page: Option<Ref>,
                           x: int, y: int, width: int, height: int, fieldType: string, value: string)
    ensures var es := WidgetEntries(encode, md, parent, page, x, y, width, height, fieldType, value);
      es[2] == Entry("/Parent", RefText(parent)) &&
      (page.Some? ==> es[3] == Entry("/P", RefText(page.value))) &&
      KeyCount(es, "/P") == (if page.Some? then 1 else 0) + KeyCount(MetaEntries(encode, md, true), "/P") &&
      Entry("/Rect", RectText(x, y, width, height)) in es &&
      KeyCount(es, "/F") == 1 &&
      KeyCount(es, "/V") == (if WritesValue(fieldType, value) then 1 else 0)
  {
    var rect := RectText(x, y, width, height);
    var head := WidgetHead(encode, parent, page, rect, fieldType, value);
    var meta := MetaEntries(encode, md, true);
    WidgetMetaSkipsFAndV(encode, md);
    KeyCountConcat(head, meta, "/P");
    KeyCountConcat(head, meta, "/F");
    KeyCountConcat(head, meta, "/V");
    WidgetHeadCounts(encode, parent, page, rect, fieldType, value);
    assert head[if page.Some? then 5 else 4] == Entry("/Rect", rect);
    assert (head + meta)[if page.Some? then 5 else 4] == Entry("/Rect", rect);
  }

  lemma WidgetHeadCounts(encode: string -> string, parent: Ref, page: Option<Ref>, rect: string, fieldType: string, value: string)
    ensures KeyCount(WidgetHead(encode, parent, page, rect, fieldType, value), "/P") == if page.Some? then 1 else 0
    ensures KeyCount(WidgetHead(encode, parent, page, rect, fieldType, value), "/F") == 1
    ensures KeyCount(WidgetHead(encode, parent, page, rect, fieldType, value), "/V") == if WritesValue(fieldType, value) then 1 else 0
  {
    WidgetHeadCount(encode, parent, page, rect, fieldType, value, "/P");
    WidgetHeadCount(encode, parent, page, rect, fieldType, value, "/F");
    WidgetHeadCount(encode, parent, page, rect, fieldType, value, "/V");
  }

  lemma WidgetHeadCount(encode: string -> string, parent: Ref, page: Option<Ref>, rect: string, fieldType: string, value: string, k: string)
    ensures KeyCount(WidgetHead(encode, parent, page, rect, fieldType, value), k) ==
      Hit(Entry("/Type", "/Annot"), k) + Hit(Entry("/Subtype", "/Widget"), k) + Hit(Entry("/Parent", RefText(parent)), k) +
      (if page.Some? then Hit(Entry("/P", RefText(page.value)), k) else 0) +
      Hit(Entry("/FT", fieldType), k) + Hit(Entry("/Rect", rect), k) + Hit(Entry("/F", "4"), k) + Hit(Entry("/DA", HelvAppearance), k) +
      (if WritesValue(fieldType, value) then Hit(Entry("/V", encode(value)), k) else 0)
  {
    var a0, a1, a2 := Entry("/Type", "/Annot"), Entry("/Subtype", "/Widget"), Entry("/Parent", RefText(parent));
    var p := if page.Some? then [Entry("/P", RefText(page.value))] else [];
    var b0, b1, b2, b3 := Entry("/FT", fieldType), Entry("/Rect", rect), Entry("/F", "4"), Entry("/DA", HelvAppearance);
    var v := ValueEntry(encode, fieldType, value);
    KeyCountConcat([a0, a1, a2] + p + [b0, b1, b2, b3], v, k);
    KeyCountConcat([a0, a1, a2] + p, [b0, b1, b2, b3], k);
    KeyCountConcat([a0, a1, a2], p, k);
    KeyCount3(a0, a1, a2, k);
    KeyCount4(b0, b1, b2, b3, k);
    if p != [] { KeyCountOne(p[0], k); }
    if v != [] { KeyCountOne(v[0], k); }
  }

  /**
   * A reference as the builders write it is one the `\d+\s+\d+\s+R` recogniser
   * accepts, and its digit groups read back to the numbers.
   */
  lemma RefTextReadsBack(r: Ref)
    requires r.num >= 0 && r.gen >= 0
    ensures var t := RefText(r); var m := RefTokenAt(t, 0);
      m.Some? && DecimalValue(m.value.num) == r.num && DecimalValue(m.value.gen) == r.gen
  {
    var a, b := NatToString(r.num), NatToString(r.gen);
    var t := RefText(r);
    assert t == a + " " + b + " " + "R";
    assert OccursAt(t, a + " " + b + " " + "R", 0);
    RefTokenAtComplete(t, 0, a, " ", b, " ");
    DecimalRoundTrip(r.num);
    DecimalRoundTrip(r.gen);
  }
}
