/**
 * `add_widget_to_page`: the widget reference goes into the page's `/Annots`,
 * whether that is an inline array, a reference to an array object, or
 * missing. Each branch is a function of the ledger and the page text.
 */
module Annots {
  import opened Wrappers
  import opened Text
  import opened Numerals
  import opened Patterns
  import opened Ledger
  import opened DictScan
  import opened Builders
  import opened AcroForm

  /** Which branch of the page step applies, with the match that selected it. */
  datatype AnnotsShape = InlineAnnots(m: ArrayMatch) | IndirectAnnots(im: IndirectMatch) | NoAnnots

  /** `=~ %r{/Annots\s*\[(.*?)\]}m`, else `=~ %r{/Annots\s+(\d+)\s+(\d+)\s+R}`, else neither. */
  function AnnotsShapeOf(body: string): AnnotsShape {
    match FirstInlineArray(body, true)
    case Some(m) => InlineAnnots(m)
    case None =>
      match FirstIndirectArray(body)
      case Some(im) => IndirectAnnots(im)
      case None => NoAnnots
  }

  /** `"#{widget_obj_num} 0 R"`. */
  function WidgetToken(w: int): string { RefText(Ref(w, 0)) }

  /** The new inline array: `[tok]` for blank contents, else `[contents tok]`. */
  function NewAnnots(inner: string, tok: string): string {
    if Strip(inner) == [] then "[" + tok + "]" else "[" + inner + " " + tok + "]"
  }

  /**
   * The fallback rewrite: the first `/Annots\s*\[.*?\]` WITHOUT the `m` flag
   * becomes `/Annots ` followed by `na`; no such match, no change.
   */
  function InlineFallback(body: string, na: string): string {
    match FirstInlineArray(body, false)
    case Some(m2) => body[..m2.start] + "/Annots " + na + body[m2.end..]
    case None => body
  }

  /** The inline branch: the scanner's edit when it changed the text, else the fallback. */
  function InlineStep(scan: Scanner, body: string, m: ArrayMatch, w: int): string {
    var result := scan.addRefToInlineArray(body, "/Annots", Ref(w, 0));
    if result != body then result else InlineFallback(body, NewAnnots(m.inner, WidgetToken(w)))
  }

  /** The array object's new text: `[tok]`, `[stripped-contents tok]`, or `[text tok]` for anything unbracketed. */
  function ArrayBodyWith(b: string, tok: string): string {
    var t := Strip(b);
    if t == "[]" then "[" + tok + "]"
    // `start_with?("[") && end_with?("]")`; a one-character text cannot do both
    else if |t| >= 2 && t[0] == '[' && t[|t| - 1] == ']' then
      "[" + Strip(t[1..|t| - 1]) + " " + tok + "]"
    else "[" + b + " " + tok + "]"
  }

  /** The rewrite when the array object has no body: the first indirect `/Annots` becomes an inline array. */
  function IndirectRewrite(body: string, im: IndirectMatch, tok: string): string
    requires im.start <= im.ref.end <= |body|
  {
    body[..im.start] + "/Annots [" + tok + "]" + body[im.ref.end..]
  }

  /**
   * No `/Annots`: insert it before the last `>>`, or append it. The action
   * writes the first branch with the reverse/sub/reverse idiom;
   * `AbsentBodyIsReverseSub` shows it is this replacement of the last `>>`.
   */
  function AbsentBody(body: string, tok: string): string {
    if Contains(body, ">>") then ReplaceLast(body, ">>", "/Annots [" + tok + "]>>")
    else body + " /Annots [" + tok + "]"
  }

  /** The ledger after any array-object patch, and the page's new text. */
  function AnnotsStep(st: Store, scan: Scanner, body: string, w: int): (r: Stage)
    ensures r.store.objects == st.objects && r.store.last == st.last
  {
    var tok := WidgetToken(w);
    match AnnotsShapeOf(body)
    case InlineAnnots(m) => Stage(st, InlineStep(scan, body, m, w))
    case IndirectAnnots(im) => IndirectStep(st, body, im, tok)
    case NoAnnots => Stage(st, AbsentBody(body, tok))
  }

  /** The indirect branch: patch the array object when it has a body, else rewrite the page. */
  function IndirectStep(st: Store, body: string, im: IndirectMatch, tok: string): (r: Stage)
    requires im.start <= im.ref.end <= |body| && AllDigits(im.ref.num) && AllDigits(im.ref.gen)
    ensures r.store.objects == st.objects && r.store.last == st.last
  {
    var arr := RefOfMatch(im.ref);
    match st.Lookup(arr)
    case Some(ab) => Stage(st.ApplyPatch(arr, ArrayBodyWith(ab, tok), ab), body)
    case None => Stage(st, IndirectRewrite(body, im, tok))
  }

  /** `add_widget_to_page(w, page_num)`, given the page `find_page_by_number` found. */
  function PageStage(st: Store, scan: Scanner, page: Option<Ref>, w: int): (r: Store)
    requires page.Some? ==> page.value in st.objects
    ensures r.objects == st.objects && r.last == st.last
  {
    if page.None? then st
    else
      var body := st.Lookup(page.value).value;
      var s := AnnotsStep(st, scan, body, w);
      s.store.ApplyPatch(page.value, s.body, body)
  }

  /** With an inline `/Annots` array the step is the inline rewrite. */
  lemma AnnotsStepInline(st: Store, scan: Scanner, body: string, w: int, m: ArrayMatch)
    requires FirstInlineArray(body, true) == Some(m)
    ensures AnnotsStep(st, scan, body, w) == Stage(st, InlineStep(scan, body, m, w))
  {
  }

  /** With an indirect `/Annots` the step patches the array object when it has a body, else rewrites the page. */
  lemma AnnotsStepIndirect(st: Store, scan: Scanner, body: string, w: int, im: IndirectMatch)
    requires FirstInlineArray(body, true).None? && FirstIndirectArray(body) == Some(im)
    ensures var arr := RefOfMatch(im.ref); var tok := WidgetToken(w);
      AnnotsStep(st, scan, body, w) ==
        if st.Lookup(arr).Some? then Stage(st.ApplyPatch(arr, ArrayBodyWith(st.Lookup(arr).value, tok), st.Lookup(arr).value), body)
        else Stage(st, IndirectRewrite(body, im, tok))
  {
  }

  /** Without `/Annots` the step inserts one. */
  lemma AnnotsStepAbsent(st: Store, scan: Scanner, body: string, w: int)
    requires FirstInlineArray(body, true).None? && FirstIndirectArray(body).None?
    ensures AnnotsStep(st, scan, body, w) == Stage(st, AbsentBody(body, WidgetToken(w)))
  {
  }

  /** The indirect branch as the action writes it, reading the reference with `Integer`; None where `Integer` raises. */
  function IndirectStepAsWritten(st: Store, body: string, im: IndirectMatch, tok: string): Option<Stage>
    requires im.start <= im.ref.end <= |body|
    requires |im.ref.num| > 0 && AllDigits(im.ref.num) && |im.ref.gen| > 0 && AllDigits(im.ref.gen)
  {
    match RefOfMatchAsWritten(im.ref)
    case None => None
    case Some(arr) =>
      match st.Lookup(arr)
      case Some(ab) => Some(Stage(st.ApplyPatch(arr, ArrayBodyWith(ab, tok), ab), body))
      case None => Some(Stage(st, IndirectRewrite(body, im, tok)))
  }

  /** The `/Annots` step as the action writes it; None where it raises. */
  function AnnotsStepAsWritten(st: Store, scan: Scanner, body: string, w: int): Option<Stage> {
    var tok := WidgetToken(w);
    match AnnotsShapeOf(body)
    case InlineAnnots(m) => Some(Stage(st, InlineStep(scan, body, m, w)))
    case IndirectAnnots(im) => IndirectStepAsWritten(st, body, im, tok)
    case NoAnnots => Some(Stage(st, AbsentBody(body, tok)))
  }

  /** Unless an indirect `/Annots` spells a number with a leading zero, the step as written is the step. */
  lemma AnnotsStepAsWrittenAgrees(st: Store, scan: Scanner, body: string, w: int)
    requires AnnotsShapeOf(body).IndirectAnnots? ==>
      var m := AnnotsShapeOf(body).im.ref;
      |m.num| > 0 && |m.gen| > 0 && (m.num[0] != '0' || |m.num| == 1) && (m.gen[0] != '0' || |m.gen| == 1)
    ensures AnnotsStepAsWritten(st, scan, body, w) == Some(AnnotsStep(st, scan, body, w))
  {
    if AnnotsShapeOf(body).IndirectAnnots? {
      RefOfMatchAsWrittenAgrees(AnnotsShapeOf(body).im.ref);
    }
  }

  /** A page whose text has no `[` and starts with `/Annots` and a reference as the writer spells it selects that very array object. */
  lemma AnnotsShapeOfWrittenRef(body: string, r: Ref, rest: string)
    requires r.num >= 0 && r.gen >= 0
    requires body == "/Annots " + RefText(r) + rest && Lacks(body, '[')
    ensures AnnotsShapeOf(body).IndirectAnnots? && RefOfMatch(AnnotsShapeOf(body).im.ref) == r
  {
    var a, b := NatToString(r.num), NatToString(r.gen);
    FirstInlineArrayFromWithoutBracket(body, "/Annots", true, 0);
    assert OccursAt(body, "/Annots", 0) && OccursAt(body, " ", 7) && OccursAt(body, a + " " + b + " " + "R", 8) by {
      assert body == "/Annots" + " " + (a + " " + b + " " + "R") + rest;
    }
    IndirectArrayAtComplete(body, "/Annots", 0, " ", a, " ", b, " ");
    DecimalRoundTrip(r.num);
    DecimalRoundTrip(r.gen);
  }

  /**
   * For the page text `/Annots 010 0 R` the step as written patches array
   * object 8, where the step patches object 10; for `/Annots 09 0 R` it raises
   * where the step patches object 9.
   */
  lemma AnnotsStepAsWrittenMisreads(st: Store, scan: Scanner, w: int, p: string, q: string, b8: string, b9: string, b10: string)
    requires p == "/Annots 010 0 R" && q == "/Annots 09 0 R"
    requires st.Lookup(Ref(8, 0)) == Some(b8) && st.Lookup(Ref(9, 0)) == Some(b9) && st.Lookup(Ref(10, 0)) == Some(b10)
    ensures var tok := WidgetToken(w);
      AnnotsStepAsWritten(st, scan, p, w) == Some(Stage(st.ApplyPatch(Ref(8, 0), ArrayBodyWith(b8, tok), b8), p)) &&
      AnnotsStep(st, scan, p, w) == Stage(st.ApplyPatch(Ref(10, 0), ArrayBodyWith(b10, tok), b10), p)
    ensures var tok := WidgetToken(w);
      AnnotsStepAsWritten(st, scan, q, w) == None &&
      AnnotsStep(st, scan, q, w) == Stage(st.ApplyPatch(Ref(9, 0), ArrayBodyWith(b9, tok), b9), q)
  {
    assert p == "/Annots " + "010" + " " + "0" + " R";
    assert q == "/Annots " + "09" + " " + "0" + " R";
    IndirectAnnotsOf(p, "010", "0");
    IndirectAnnotsOf(q, "09", "0");
    ReadingsOf(RefMatch("010", "0", |p|));
    ReadingsOf(RefMatch("09", "0", |q|));
  }

  /** `/Annots a b R` for numerals `a` and `b` is an indirect `/Annots` with `a` and `b` as its groups. */
  lemma IndirectAnnotsOf(body: string, a: string, b: string)
    requires |a| > 0 && AllDigits(a) && |b| > 0 && AllDigits(b) && body == "/Annots " + a + " " + b + " R"
    ensures AnnotsShapeOf(body) == IndirectAnnots(IndirectMatch(0, RefMatch(a, b, |body|)))
  {
    assert body == "/Annots " + a + (" " + b + " R");
    NumeralLacksBracket(" ", b, " R");
    NumeralLacksBracket("/Annots ", a, " " + b + " R");
    FirstInlineArrayFromWithoutBracket(body, "/Annots", true, 0);
    assert OccursAt(body, "/Annots", 0) && OccursAt(body, " ", 7) && OccursAt(body, a + " " + b + " " + "R", 8) by {
      assert body == "/Annots" + " " + (a + " " + b + " " + "R");
    }
    IndirectArrayAtComplete(body, "/Annots", 0, " ", a, " ", b, " ");
  }

  /** A numeral between two texts without `[` leaves the whole without `[`. */
  lemma NumeralLacksBracket(pre: string, a: string, post: string)
    requires Lacks(pre, '[') && AllDigits(a) && Lacks(post, '[')
    ensures Lacks(pre + a + post, '[')
  {
    var s := pre + a + post;
    forall k | 0 <= k < |s| ensures s[k] != '[' {
      if k < |pre| {
        assert s[k] == pre[k];
      } else if k < |pre| + |a| {
        assert s[k] == a[k - |pre|];
      } else {
        assert s[k] == post[k - |pre| - |a|];
      }
    }
  }

  /** The page stage on a found page is its `/Annots` step followed by the page patch. */
  lemma PageStageFound(st: Store, scan: Scanner, page: Ref, w: int, s: Stage)
    requires page in st.objects && st.Lookup(page).Some?
    requires s == AnnotsStep(st, scan, st.Lookup(page).value, w)
    ensures PageStage(st, scan, Some(page), w) == s.store.ApplyPatch(page, s.body, st.Lookup(page).value)
  {
  }

  /** An occurrence puts the last occurrence somewhere. */
  lemma LastIndexOfFound(s: string, t: string)
    requires Contains(s, t)
    ensures LastIndexOf(s, t).Some?
  {
    ContainsIff(s, t);
    var j :| OccursAt(s, t, j);
    LastIndexOfLast(s, t, j);
  }

  /**
   * Without `/Annots` the page text gets `/Annots [tok]` right before its last
   * `>>`, or at its end when it has none; either way the text changes.
   */
  lemma AbsentBodyInserts(body: string, tok: string)
    ensures var r := AbsentBody(body, tok); var ins := "/Annots [" + tok + "]";
      r != body && Contains(r, ins) &&
      (Contains(body, ">>") ==>
         var i := LastIndexOf(body, ">>");
         i.Some? && r == body[..i.value] + ins + body[i.value..]) &&
      (!Contains(body, ">>") ==> r == body + " " + ins)
  {
    var ins := "/Annots [" + tok + "]";
    var r := AbsentBody(body, tok);
    if Contains(body, ">>") {
      assert "/Annots [" + tok + "]>>" == ins + ">>";
      InsertBeforeLast(body, ">>", ins);
    } else {
      assert r == body + " " + ins;
      assert r[|body| + 1..] == ins;
      OccursAtContains(r, ins, |body| + 1);
    }
  }

  /** `page_body.reverse.sub(">>".reverse, "/Annots [tok]>>".reverse).reverse`, as the action writes it, is `AbsentBody`. */
  lemma AbsentBodyIsReverseSub(body: string, tok: string)
    ensures AbsentBody(body, tok) ==
      if Contains(body, ">>") then Reverse(ReplaceFirst(Reverse(body), Reverse(">>"), Reverse("/Annots [" + tok + "]>>")))
      else body + " /Annots [" + tok + "]"
  {
    ReverseSubIsReplaceLast(body, ">>", "/Annots [" + tok + "]>>");
  }

  /** Replacing the last `t` by `ins + t` inserts `ins` right before it. */
  lemma InsertBeforeLast(s: string, t: string, ins: string)
    requires Contains(s, t) && |ins| > 0
    ensures var i := LastIndexOf(s, t); var r := ReplaceLast(s, t, ins + t);
      i.Some? && r == s[..i.value] + ins + s[i.value..] && r != s && Contains(r, ins)
  {
    LastIndexOfFound(s, t);
    var i := LastIndexOf(s, t).value;
    var r := ReplaceLast(s, t, ins + t);
    assert s[i..i + |t|] == t;
    assert s[i..] == t + s[i + |t|..];
    assert r == s[..i] + (ins + t) + s[i + |t|..];
    assert r == s[..i] + ins + s[i..];
    assert |r| == |s| + |ins|;
    assert r[i..i + |ins|] == ins;
    OccursAtContains(r, ins, i);
  }

  /**
   * The array object's new text is a bracketed array whose last element is the
   * widget reference, set off by a space unless it is the only element.
   */
  lemma ArrayBodyWithAppends(b: string, w: nat)
    ensures var tok := WidgetToken(w); var r := ArrayBodyWith(b, tok);
      |r| >= |tok| + 2 && r[0] == '[' && r[|r| - 1] == ']' &&
      r[|r| - 1 - |tok|..|r| - 1] == tok &&
      (|r| == |tok| + 2 || r[|r| - 2 - |tok|] == ' ') &&
      (Strip(b) == "[]" ==> r == "[" + tok + "]")
    ensures var tok := WidgetToken(w); var m := RefTokenAt(tok, 0);
      m.Some? && DecimalValue(m.value.num) == w && DecimalValue(m.value.gen) == 0
  {
    RefTextReadsBack(Ref(w, 0));
  }

  /** With the array object missing, the indirect value becomes `[tok]` and the rest of the text stays. */
  lemma IndirectRewriteInserts(body: string, im: IndirectMatch, tok: string)
    requires im.start <= im.ref.end <= |body|
    ensures var r := IndirectRewrite(body, im, tok); var ins := "/Annots [" + tok + "]";
      StartsWith(r, body[..im.start]) && EndsWith(r, body[im.ref.end..]) &&
      OccursAt(r, ins, im.start) && Contains(r, ins)
  {
    var r := IndirectRewrite(body, im, tok);
    var ins := "/Annots [" + tok + "]";
    assert r[..im.start] == body[..im.start];
    assert r[im.start..im.start + |ins|] == ins;
    assert r[|r| - |body[im.ref.end..]|..] == body[im.ref.end..];
    OccursAtContains(r, ins, im.start);
  }

  /** A match without the `m` flag is also one with it. */
  lemma InlineSingleLine(s: string, key: string, j: nat)
    requires j <= |s|
    ensures InlineArrayAt(s, key, j, false).Some? ==> InlineArrayAt(s, key, j, true) == InlineArrayAt(s, key, j, false)
    ensures InlineArrayAt(s, key, j, true).Some? && Lacks(InlineArrayAt(s, key, j, true).value.inner, '\n') ==>
      InlineArrayAt(s, key, j, false) == InlineArrayAt(s, key, j, true)
  {
  }

  /**
   * When the array the `m`-flag regex found spans one line, the fallback
   * regex without the flag finds that very array, so the fallback rewrites it.
   */
  lemma InlineFallbackSameArray(body: string)
    requires FirstInlineArray(body, true).Some?
    requires Lacks(FirstInlineArray(body, true).value.inner, '\n')
    ensures FirstInlineArray(body, false) == FirstInlineArray(body, true)
  {
    InlineFallbackSameFrom(body, "/Annots", 0);
  }

  /** Searching from `from`, both regexes find the same array when the `m`-flag one finds one on a single line. */
  lemma {:induction false} InlineFallbackSameFrom(body: string, key: string, from: nat)
    requires from <= |body|
    requires FirstInlineArrayFrom(body, key, true, from).Some?
    requires Lacks(FirstInlineArrayFrom(body, key, true, from).value.inner, '\n')
    ensures FirstInlineArrayFrom(body, key, false, from) == FirstInlineArrayFrom(body, key, true, from)
    decreases |body| - from
  {
    InlineSingleLine(body, key, from);
    if InlineArrayAt(body, key, from, true).None? {
      InlineFallbackSameFrom(body, key, from + 1);
    }
  }

  /**
   * The fallback writes `/Annots ` and the new array where the flagless match
   * was, keeping the text around it; without a match the text stays.
   */
  lemma InlineFallbackInserts(body: string, na: string)
    ensures var m2 := FirstInlineArray(body, false); var r := InlineFallback(body, na);
      (m2.None? ==> r == body) &&
      (m2.Some? ==> StartsWith(r, body[..m2.value.start]) && EndsWith(r, body[m2.value.end..]) &&
                    OccursAt(r, "/Annots " + na, m2.value.start))
  {
    var m2 := FirstInlineArray(body, false);
    if m2.Some? {
      var r := InlineFallback(body, na);
      var i := m2.value.start;
      var ins := "/Annots " + na;
      assert r == body[..i] + ins + body[m2.value.end..];
      assert r[..i] == body[..i];
      assert r[i..i + |ins|] == ins;
      assert r[|r| - |body[m2.value.end..]|..] == body[m2.value.end..];
    }
  }

  /**
   * The page step queues at most one patch, keeps the table and the counter,
   * and with no page found changes nothing. A missing `/Annots` always
   * patches the page; an array object that resolves is edited in place of the page.
   */
  lemma PageStagePatches(st: Store, scan: Scanner, page: Option<Ref>, w: int)
    requires page.Some? ==> page.value in st.objects
    ensures page.None? ==> PageStage(st, scan, page, w) == st
    ensures var r := PageStage(st, scan, page, w);
      r.objects == st.objects && r.last == st.last &&
      |st.patches| <= |r.patches| <= |st.patches| + 1 && r.patches[..|st.patches|] == st.patches
    ensures page.Some? ==>
      var body := st.Lookup(page.value).value;
      AnnotsShapeOf(body).NoAnnots? ==>
        PageStage(st, scan, page, w).patches == st.patches + [Patch(page.value, AbsentBody(body, WidgetToken(w)))]
    ensures page.Some? ==>
      var body := st.Lookup(page.value).value;
      var shape := AnnotsShapeOf(body);
      shape.IndirectAnnots? && st.Lookup(RefOfMatch(shape.im.ref)).Some? ==>
        var ab := st.Lookup(RefOfMatch(shape.im.ref)).value;
        PageStage(st, scan, page, w) == st.ApplyPatch(RefOfMatch(shape.im.ref), ArrayBodyWith(ab, WidgetToken(w)), ab)
  {
    var r := PageStage(st, scan, page, w);
    if page.Some? {
      var body := st.Lookup(page.value).value;
      var s := AnnotsStep(st, scan, body, w);
      match AnnotsShapeOf(body)
      case InlineAnnots(m) =>
        ApplyPatchEffect(st, page.value, s.body, body);
      case IndirectAnnots(im) =>
        var arr := RefOfMatch(im.ref);
        match st.Lookup(arr) {
          case Some(ab) =>
            ApplyPatchEffect(st, arr, ArrayBodyWith(ab, WidgetToken(w)), ab);
          case None =>
            ApplyPatchEffect(st, page.value, s.body, body);
        }
      case NoAnnots =>
        AbsentBodyInserts(body, WidgetToken(w));
        ApplyPatchEffect(st, page.value, s.body, body);
    }
    assert r.patches[..|st.patches|] == st.patches;
  }

  /** The page step only ever queues, and keeps the numbering. */
  lemma PageStageExtends(st: Store, scan: Scanner, page: Option<Ref>, w: int)
    requires page.Some? ==> page.value in st.objects
    ensures Extends(st, PageStage(st, scan, page, w))
    ensures st.Numbered() ==> PageStage(st, scan, page, w).Numbered()
  {
    PageStagePatches(st, scan, page, w);
  }

  /** Without `/Annots`, the page's text after the step holds the widget reference in a new `/Annots` array. */
  lemma PageStageAbsentLookup(st: Store, scan: Scanner, page: Ref, w: int)
    requires page in st.objects
    requires AnnotsShapeOf(st.Lookup(page).value).NoAnnots?
    ensures PageStage(st, scan, Some(page), w).Lookup(page) == Some(AbsentBody(st.Lookup(page).value, WidgetToken(w)))
    ensures Contains(PageStage(st, scan, Some(page), w).Lookup(page).value, "/Annots [" + WidgetToken(w) + "]")
  {
    var body := st.Lookup(page).value;
    AbsentBodyInserts(body, WidgetToken(w));
    ApplyPatchEffect(st, page, AbsentBody(body, WidgetToken(w)), body);
  }
}
