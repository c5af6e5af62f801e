/**
 * How the action writes metadata: `format_pdf_key` and `format_pdf_value`,
 * and the `to_s` that string interpolation applies to the `/Ff` flags.
 */
module Format {
  import opened Wrappers
  import opened Text
  import opened Numerals

  /** A Ruby hash key or type option: a Symbol or a String. */
  datatype RubyName = Sym(name: string) | Str(name: string) {
    /** `key.to_s`. */
    function ToS(): string { name }
  }

  /** The metadata values the action formats (Float and other objects are not modelled). */
  datatype MetaValue =
    | Int(i: int)
    | Text(s: string)
    | List(items: seq<MetaValue>)
    | Dict(pairs: seq<(RubyName, MetaValue)>)

  /** `format_pdf_key(key)`: the key's text, with a `/` in front unless it has one. */
  function FormatPdfKey(key: RubyName): (k: string)
    ensures StartsWith(k, "/")
    ensures StartsWith(key.ToS(), "/") ==> k == key.ToS()
    ensures !StartsWith(key.ToS(), "/") ==> k == "/" + key.ToS()
  {
    var s := key.ToS();
    if StartsWith(s, "/") then s else "/" + s
  }

  /** A string `format_pdf_value` passes through as already written in PDF syntax. */
  predicate LooksLikePdfObject(s: string) {
    StartsWith(s, "(") || StartsWith(s, "<") || StartsWith(s, "/")
  }

  /** `format_pdf_value(v)`, with `encode` standing for `DictScan.encode_pdf_string`. */
  function FormatPdfValue(encode: string -> string, v: MetaValue): string
    decreases v
  {
    match v
    case Int(i) => IntToString(i)
    case Text(s) => if LooksLikePdfObject(s) then s else encode(s)
    case List(items) =>
      "[" + Join(seq(|items|, k requires 0 <= k < |items| => FormatPdfValue(encode, items[k])), " ") + "]"
    case Dict(pairs) =>
      "<<\n" + Join(seq(|pairs|, k requires 0 <= k < |pairs| =>
        "  " + FormatPdfKey(pairs[k].0) + " " + FormatPdfValue(encode, pairs[k].1)), "\n") + "\n>>"
  }

  /** `"#{v}"` for the `/Ff` flags; an Array or Hash is written with `format_pdf_value` here. */
  function InterpolatedText(encode: string -> string, v: MetaValue): string {
    match v
    case Int(i) => IntToString(i)
    case Text(s) => s
    case _ => FormatPdfValue(encode, v)
  }

  /** The PDF array text `[a b c]` of decimal integers read back; None when it has another form. */
  function ParseIntArray(t: string): Option<seq<int>> {
    if |t| < 2 || t[0] != '[' || t[|t| - 1] != ']' then None
    else if t == "[]" then Some([])
    else ParseInts(Split(t[1..|t| - 1], ' '))
  }

  function ParseInts(parts: seq<string>): Option<seq<int>> {
    if parts == [] then Some([])
    else
      match (ParseInt(parts[0]), ParseInts(parts[1..]))
      case (Some(i), Some(rest)) => Some([i] + rest)
      case _ => None
  }

  /** A key is written with exactly one leading `/`, and formatting a written key again changes nothing. */
  lemma FormatPdfKeyIdempotent(key: RubyName)
    ensures FormatPdfKey(Str(FormatPdfKey(key))) == FormatPdfKey(key)
    ensures FormatPdfKey(Sym(FormatPdfKey(key))) == FormatPdfKey(key)
  {
  }

  /** An integer is written as decimal text that reads back to it. */
  lemma FormatIntRoundTrip(encode: string -> string, i: int)
    ensures ParseInt(FormatPdfValue(encode, Int(i))) == Some(i)
  {
    IntRoundTrip(i);
  }

  /** Text already in PDF syntax is kept; any other text is encoded. */
  lemma FormatTextCases(encode: string -> string, s: string)
    ensures LooksLikePdfObject(s) ==> FormatPdfValue(encode, Text(s)) == s
    ensures !LooksLikePdfObject(s) ==> FormatPdfValue(encode, Text(s)) == encode(s)
  {
  }

  /** A formatted hash is a PDF dictionary, which `format_pdf_value` then keeps as it is. */
  lemma FormatDictIsStable(encode: string -> string, pairs: seq<(RubyName, MetaValue)>)
    ensures var d := FormatPdfValue(encode, Dict(pairs));
      StartsWith(d, "<<\n") && EndsWith(d, "\n>>") && FormatPdfValue(encode, Text(d)) == d
  {
    var d := FormatPdfValue(encode, Dict(pairs));
    assert d[..1] == "<";
    assert d[..3] == "<<\n";
  }

  /** An array of integers is written as a PDF array that reads back to the same integers. */
  lemma IntArrayRoundTrip(encode: string -> string, xs: seq<int>)
    ensures ParseIntArray(FormatPdfValue(encode, List(seq(|xs|, k requires 0 <= k < |xs| => Int(xs[k]))))) == Some(xs)
  {
    var items := seq(|xs|, k requires 0 <= k < |xs| => Int(xs[k]));
    var texts := seq(|items|, k requires 0 <= k < |items| => FormatPdfValue(encode, items[k]));
    assert texts == seq(|xs|, k requires 0 <= k < |xs| => IntToString(xs[k]));
    IntTextsRoundTrip(xs);
  }

  /** The texts of integers, space-joined inside brackets, read back to the integers. */
  lemma IntTextsRoundTrip(xs: seq<int>)
    ensures ParseIntArray("[" + Join(seq(|xs|, k requires 0 <= k < |xs| => IntToString(xs[k])), " ") + "]") == Some(xs)
  {
    var texts := seq(|xs|, k requires 0 <= k < |xs| => IntToString(xs[k]));
    var t := "[" + Join(texts, " ") + "]";
    assert t[1..|t| - 1] == Join(texts, " ");
    if xs != [] {
      forall k | 0 <= k < |texts| ensures Lacks(texts[k], ' ') {
        var r := IntToString(xs[k]);
        assert forall j :: 0 <= j < |r| ==> r[j] == '-' || IsDigit(r[j]);
      }
      SplitJoin(texts, ' ');
      ParseIntsOfTexts(xs);
      JoinNonEmpty(texts, " ");
    }
  }

  lemma {:induction false} ParseIntsOfTexts(xs: seq<int>)
    ensures ParseInts(seq(|xs|, k requires 0 <= k < |xs| => IntToString(xs[k]))) == Some(xs)
  {
    if xs != [] {
      var texts := seq(|xs|, k requires 0 <= k < |xs| => IntToString(xs[k]));
      assert texts[1..] == seq(|xs[1..]|, k requires 0 <= k < |xs[1..]| => IntToString(xs[1..][k]));
      IntRoundTrip(xs[0]);
      ParseIntsOfTexts(xs[1..]);
      assert [xs[0]] + xs[1..] == xs;
    }
  }
}
