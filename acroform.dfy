/**
 * `add_field_to_acroform_with_defaults`: the AcroForm dictionary gets the new
 * field in `/Fields`, `/NeedAppearances true` when the key is missing, and a
 * Helvetica font under `/DR /Font /Helv`, all in one patch of the AcroForm.
 * Each stage is a function of the ledger and the text so far.
 */
module AcroForm {
  import opened Wrappers
  import opened Text
  import opened Numerals
  import opened Patterns
  import opened Ledger
  import opened DictScan
  import opened Builders

  /** The two groups of `\A(\d+)\s+(\d+)\s+R` read as decimal object number and generation. */
  function RefOfMatch(m: RefMatch): Ref
    requires AllDigits(m.num) && AllDigits(m.gen)
  {
    Ref(DecimalValue(m.num), DecimalValue(m.gen))
  }

  /** `[Integer(num), Integer(gen)]` as the action writes it; None where `Integer` raises. */
  function RefOfMatchAsWritten(m: RefMatch): Option<Ref>
    requires |m.num| > 0 && AllDigits(m.num) && |m.gen| > 0 && AllDigits(m.gen)
  {
    match (RubyInteger(m.num), RubyInteger(m.gen))
    case (Some(a), Some(b)) => Some(Ref(a, b))
    case _ => None
  }

  /**
   * The value token `010 0 R` names object 10, but `Integer` reads its number
   * as octal 8; the token `09 0 R` makes `Integer` raise.
   */
  lemma RefOfMatchAsWrittenReadsOctal(t: string, u: string)
    requires t == "010 0 R" && u == "09 0 R"
    ensures var m := RefTokenAt(t, 0);
      m.Some? && RefOfMatch(m.value) == Ref(10, 0) && RefOfMatchAsWritten(m.value) == Some(Ref(8, 0))
    ensures var m := RefTokenAt(u, 0);
      m.Some? && RefOfMatch(m.value) == Ref(9, 0) && RefOfMatchAsWritten(m.value) == None
  {
    RefTokenOf("010");
    RefTokenOf("09");
    assert t == "010" + " 0 R";
    assert u == "09" + " 0 R";
    ReadingsOf(RefMatch("010", "0", 7));
    ReadingsOf(RefMatch("09", "0", 6));
  }

  /** A single-digit `0` generation reads as 0 in both readings. */
  lemma ReadingsOf(m: RefMatch)
    requires m.num in {"010", "09"} && m.gen == "0"
    ensures AllDigits(m.num) && AllDigits(m.gen) && |m.num| > 0 && |m.gen| > 0
    ensures m.num == "010" ==> RefOfMatch(m) == Ref(10, 0) && RefOfMatchAsWritten(m) == Some(Ref(8, 0))
    ensures m.num == "09" ==> RefOfMatch(m) == Ref(9, 0) && RefOfMatchAsWritten(m) == None
  {
    RubyIntegerReadsLeadingZeroAsOctal();
    assert "0"[..0] == "";
    assert DecimalValue("0") == 0 && RubyInteger("0") == Some(0);
  }

  /** `a 0 R` matches with `a` as the number and `0` as the generation. */
  lemma RefTokenOf(a: string)
    requires |a| > 0 && AllDigits(a)
    ensures RefTokenAt(a + " 0 R", 0) == Some(RefMatch(a, "0", |a| + 4))
  {
    assert a + " 0 R" == a + " " + "0" + " " + "R";
    RefTokenAtComplete(a + " 0 R", 0, a, " ", "0", " ");
  }

  /** Without leading zeros the two readings agree. */
  lemma RefOfMatchAsWrittenAgrees(m: RefMatch)
    requires |m.num| > 0 && AllDigits(m.num) && |m.gen| > 0 && AllDigits(m.gen)
    requires (m.num[0] != '0' || |m.num| == 1) && (m.gen[0] != '0' || |m.gen| == 1)
    ensures RefOfMatchAsWritten(m) == Some(RefOfMatch(m))
  {
  }

  /** Where the AcroForm keeps its fields. */
  datatype FieldsShape = IndirectFields(arrayRef: Ref) | InlineFields | NoFields

  /** The branch of step 1: an `A B R` value token, else a `/Fields` somewhere in the text, else none. */
  function FieldsShapeOf(scan: Scanner, body: string): FieldsShape {
    var tok := scan.valueTokenAfter("/Fields", body);
    if tok.Some? && RefTokenAt(tok.value, 0).Some? then IndirectFields(RefOfMatch(RefTokenAt(tok.value, 0).value))
    else if Contains(body, "/Fields") then InlineFields
    else NoFields
  }

  /** A value token that starts with a reference as the writer spells it selects that very array object. */
  lemma FieldsShapeOfWrittenRef(scan: Scanner, body: string, r: Ref, rest: string)
    requires r.num >= 0 && r.gen >= 0
    requires scan.valueTokenAfter("/Fields", body) == Some(RefText(r) + rest)
    ensures FieldsShapeOf(scan, body) == IndirectFields(r)
  {
    var a, b := NatToString(r.num), NatToString(r.gen);
    var tok := RefText(r) + rest;
    assert tok[..|RefText(r)|] == a + " " + b + " " + "R";
    RefTokenAtComplete(tok, 0, a, " ", b, " ");
    DecimalRoundTrip(r.num);
    DecimalRoundTrip(r.gen);
  }

  /** The ledger and the AcroForm text after a stage. */
  datatype Stage = Stage(store: Store, body: string)

  /** `[#{n} 0 R]`. */
  function NewFieldsArray(n: int): string { "[" + RefText(Ref(n, 0)) + "]" }

  /** Step 1; None where the action raises because the `/Fields` array object has no body. */
  function FieldsStep(st: Store, scan: Scanner, body: string, n: int): Option<Stage> {
    match FieldsShapeOf(scan, body)
    case IndirectFields(arr) =>
      (match st.Lookup(arr)
       case None => None
       case Some(arrBody) => Some(Stage(st.ApplyPatch(arr, scan.addRefToArray(arrBody, Ref(n, 0)), arrBody), body)))
    case InlineFields => Some(Stage(st, scan.addRefToInlineArray(body, "/Fields", Ref(n, 0))))
    case NoFields => Some(Stage(st, scan.upsertKeyValue(body, "/Fields", NewFieldsArray(n))))
  }

  /**
   * Step 1 takes exactly one branch: the indirect one patches the array object
   * and keeps the AcroForm text; the other two edit the text and queue nothing.
   */
  lemma FieldsStepBranches(st: Store, scan: Scanner, body: string, n: int)
    ensures FieldsStep(st, scan, body, n).None? <==>
      FieldsShapeOf(scan, body).IndirectFields? && st.Lookup(FieldsShapeOf(scan, body).arrayRef).None?
    ensures var r := FieldsStep(st, scan, body, n); r.Some? && FieldsShapeOf(scan, body).IndirectFields? ==>
      var arr := FieldsShapeOf(scan, body).arrayRef; var arrBody := st.Lookup(arr).value;
      r.value.body == body && r.value.store == st.ApplyPatch(arr, scan.addRefToArray(arrBody, Ref(n, 0)), arrBody)
    ensures var r := FieldsStep(st, scan, body, n); !FieldsShapeOf(scan, body).IndirectFields? ==>
      r.Some? && r.value.store == st &&
      r.value.body == if Contains(body, "/Fields") then scan.addRefToInlineArray(body, "/Fields", Ref(n, 0))
                      else scan.upsertKeyValue(body, "/Fields", NewFieldsArray(n))
  {
  }

  /** The branch of step 1 as the action writes it, reading the reference with `Integer`; None where `Integer` raises. */
  function FieldsShapeOfAsWritten(scan: Scanner, body: string): Option<FieldsShape> {
    var tok := scan.valueTokenAfter("/Fields", body);
    if tok.Some? && RefTokenAt(tok.value, 0).Some? then
      (match RefOfMatchAsWritten(RefTokenAt(tok.value, 0).value)
       case None => None
       case Some(r) => Some(IndirectFields(r)))
    else if Contains(body, "/Fields") then Some(InlineFields)
    else Some(NoFields)
  }

  /** Step 1 as the action writes it; None where it raises, from `Integer` or from a missing array body. */
  function FieldsStepAsWritten(st: Store, scan: Scanner, body: string, n: int): Option<Stage> {
    match FieldsShapeOfAsWritten(scan, body)
    case None => None
    case Some(IndirectFields(arr)) =>
      (match st.Lookup(arr)
       case None => None
       case Some(arrBody) => Some(Stage(st.ApplyPatch(arr, scan.addRefToArray(arrBody, Ref(n, 0)), arrBody), body)))
    case Some(InlineFields) => Some(Stage(st, scan.addRefToInlineArray(body, "/Fields", Ref(n, 0))))
    case Some(NoFields) => Some(Stage(st, scan.upsertKeyValue(body, "/Fields", NewFieldsArray(n))))
  }

  /** Wherever the value token spells its reference as the writer does, the step as written is step 1. */
  lemma FieldsStepAsWrittenAgrees(st: Store, scan: Scanner, body: string, n: int, r: Ref, rest: string)
    requires r.num >= 0 && r.gen >= 0
    requires scan.valueTokenAfter("/Fields", body) == Some(RefText(r) + rest)
    ensures FieldsStepAsWritten(st, scan, body, n) == FieldsStep(st, scan, body, n)
  {
    var a, b := NatToString(r.num), NatToString(r.gen);
    var tok := RefText(r) + rest;
    assert tok[..|RefText(r)|] == a + " " + b + " " + "R";
    RefTokenAtComplete(tok, 0, a, " ", b, " ");
    DecimalRoundTrip(r.num);
    DecimalRoundTrip(r.gen);
    RubyIntegerOfCanonical(r.num);
    RubyIntegerOfCanonical(r.gen);
  }

  /**
   * For the value token `010 0 R` the step as written patches array object 8,
   * where step 1 patches object 10; for `09 0 R` it raises where step 1 patches
   * object 9.
   */
  lemma FieldsStepAsWrittenMisreads(st: Store, scan: Scanner, body: string, n: int, b8: string, b9: string, b10: string)
    requires st.Lookup(Ref(8, 0)) == Some(b8) && st.Lookup(Ref(9, 0)) == Some(b9) && st.Lookup(Ref(10, 0)) == Some(b10)
    ensures scan.valueTokenAfter("/Fields", body) == Some("010 0 R") ==>
      FieldsStepAsWritten(st, scan, body, n) == Some(Stage(st.ApplyPatch(Ref(8, 0), scan.addRefToArray(b8, Ref(n, 0)), b8), body)) &&
      FieldsStep(st, scan, body, n) == Some(Stage(st.ApplyPatch(Ref(10, 0), scan.addRefToArray(b10, Ref(n, 0)), b10), body))
    ensures scan.valueTokenAfter("/Fields", body) == Some("09 0 R") ==>
      FieldsStepAsWritten(st, scan, body, n) == None &&
      FieldsStep(st, scan, body, n) == Some(Stage(st.ApplyPatch(Ref(9, 0), scan.addRefToArray(b9, Ref(n, 0)), b9), body))
  {
    RefOfMatchAsWrittenReadsOctal("010 0 R", "09 0 R");
  }

  /** Step 2: `/NeedAppearances true` unless the key is there (whatever its value). */
  function NeedAppearancesStep(scan: Scanner, body: string): string {
    if Contains(body, "/NeedAppearances") then body else scan.upsertKeyValue(body, "/NeedAppearances", "true")
  }

  const FontBody := "<<\n  /Type /Font\n  /Subtype /Type1\n  /BaseFont /Helvetica\n>>"

  /** `/Helv #{f} 0 R`: the font entry that points at font object `f`. */
  function HelvEntry(f: int): string { "/Helv " + RefText(Ref(f, 0)) }

  /** `<< /Font << /Helv #{f} 0 R >> >>`. */
  function FontResources(f: int): string { "<< /Font << " + HelvEntry(f) + " >> >>" }

  /** The `/DR` dictionary text with its closing `>>` dropped and a `/Font` entry naming Helvetica object `f` closing it instead. */
  function WithFont(drTok: string, f: int): string {
    Chomp(drTok, ">>") + "  /Font << " + HelvEntry(f) + " >>\n>>"
  }

  /** How step 3 wires font `f` in under `/DR`. */
  function DrStep(scan: Scanner, body: string, f: int): string {
    if Contains(body, "/DR") then
      var tok := scan.valueTokenAfter("/DR", body);
      if tok.Some? && StartsWith(tok.value, "<<") then
        if Contains(tok.value, "/Font") then body
        else ReplaceFirst(body, tok.value, WithFont(tok.value, f))
      else scan.replaceKeyValue(body, "/DR", FontResources(f))
    else scan.upsertKeyValue(body, "/DR", FontResources(f))
  }

  /** Step 3: unless `/DR` and `/Helv` both occur, queue a fresh Helvetica font object and wire it in. */
  function FontStep(st: Store, scan: Scanner, body: string): Stage {
    if Contains(body, "/DR") && Contains(body, "/Helv") then Stage(st, body)
    else
      var (st1, f) := st.Allocate();
      Stage(st1.Push(Ref(f, 0), FontBody), DrStep(scan, body, f))
  }

  /** Step 3 when it adds the font: allocate a number, queue the font object under it, wire it in. */
  lemma FontStepAdds(st: Store, scan: Scanner, body: string)
    requires !(Contains(body, "/DR") && Contains(body, "/Helv"))
    ensures var (st1, f) := st.Allocate();
      FontStep(st, scan, body) == Stage(st1.Push(Ref(f, 0), FontBody), DrStep(scan, body, f))
  {
  }

  /** The font object is queued iff `/DR` or `/Helv` is missing, under a number above every number in use. */
  lemma FontStepQueuesFreshFont(st: Store, scan: Scanner, body: string)
    requires st.Numbered() && AboveAll(st.allocator)
    ensures var s := FontStep(st, scan, body);
      if Contains(body, "/DR") && Contains(body, "/Helv") then s == Stage(st, body)
      else
        var f := st.Fresh();
        s.store.patches == st.patches + [Patch(Ref(f, 0), FontBody)] && s.store.last == f &&
        s.store.Numbered() && s.body == DrStep(scan, body, f) &&
        (forall r :: r in st.objects ==> r.num < f) &&
        (forall i :: 0 <= i < |st.patches| ==> st.patches[i].ref.num < f)
  {
  }

  /** The `/DR` value written when `/DR` is absent or not a dictionary names font object `f`. */
  lemma FontResourcesNameFont(f: int)
    ensures Contains(FontResources(f), HelvEntry(f))
  {
    var e := HelvEntry(f);
    assert FontResources(f)[12..12 + |e|] == e;
    OccursAtContains(FontResources(f), e, 12);
  }

  /**
   * The branches of `/DR`: absent, upsert; not a dictionary, replace; a
   * dictionary that already has `/Font`, nothing changes.
   */
  lemma DrStepBranches(scan: Scanner, body: string, f: int)
    ensures !Contains(body, "/DR") ==> DrStep(scan, body, f) == scan.upsertKeyValue(body, "/DR", FontResources(f))
    ensures var tok := scan.valueTokenAfter("/DR", body);
      Contains(body, "/DR") && !(tok.Some? && StartsWith(tok.value, "<<")) ==>
        DrStep(scan, body, f) == scan.replaceKeyValue(body, "/DR", FontResources(f))
    ensures var tok := scan.valueTokenAfter("/DR", body);
      Contains(body, "/DR") && tok.Some? && StartsWith(tok.value, "<<") && Contains(tok.value, "/Font") ==>
        DrStep(scan, body, f) == body
  {
  }

  /**
   * A `/DR` dictionary without `/Font` has its text replaced by one that ends
   * with the new `/Font` entry, when the token occurs in the body.
   */
  lemma DrStepMergesFont(scan: Scanner, body: string, f: int)
    requires Contains(body, "/DR")
    requires var tok := scan.valueTokenAfter("/DR", body);
      tok.Some? && StartsWith(tok.value, "<<") && !Contains(tok.value, "/Font") && Contains(body, tok.value)
    ensures var tok := scan.valueTokenAfter("/DR", body).value;
      DrStep(scan, body, f) == ReplaceFirst(body, tok, WithFont(tok, f)) &&
      Contains(DrStep(scan, body, f), WithFont(tok, f))
  {
    var tok := scan.valueTokenAfter("/DR", body).value;
    ReplaceFirstInserts(body, tok, WithFont(tok, f));
  }

  /** The merged `/DR` text ends with the `/Font` entry and the closing `>>`. */
  lemma WithFontEnds(drTok: string, f: int)
    ensures EndsWith(WithFont(drTok, f), "  /Font << " + HelvEntry(f) + " >>\n>>")
    ensures EndsWith(drTok, ">>") ==> WithFont(drTok, f) == drTok[..|drTok| - 2] + "  /Font << " + HelvEntry(f) + " >>\n>>"
  {
    var w := WithFont(drTok, f);
    var tail := "  /Font << " + HelvEntry(f) + " >>\n>>";
    assert w == Chomp(drTok, ">>") + tail;
    assert w[|w| - |tail|..] == tail;
  }

  /** Whether the action registered the field, found no AcroForm, or raised. */
  datatype AcroStatus = NoAcroForm | Raised | Registered

  /** The result of the AcroForm stage: the ledger, and the AcroForm text before and after. */
  datatype AcroResult = AcroResult(status: AcroStatus, store: Store, original: string, patched: string)

  /** `add_field_to_acroform_with_defaults(n)`. */
  function AcroFormStage(st: Store, scan: Scanner, acroForm: Option<Ref>, n: int): (r: AcroResult)
    requires acroForm.Some? ==> acroForm.value in st.objects
    ensures r.store.objects == st.objects && r.store.allocator == st.allocator
  {
    if acroForm.None? then AcroResult(NoAcroForm, st, "", "")
    else
      var af := acroForm.value;
      var body := st.Lookup(af).value;
      match FieldsStep(st, scan, body, n)
      case None => AcroResult(Raised, st, body, body)
      case Some(s1) =>
        var b2 := NeedAppearancesStep(scan, s1.body);
        var s3 := FontStep(s1.store, scan, b2);
        AcroResult(Registered, s3.store.ApplyPatch(af, s3.body, body), body, s3.body)
  }

  /** The counter moves only to the number of the Helvetica font object the AcroForm step queues. */
  lemma AcroFormStageCounter(st: Store, scan: Scanner, acroForm: Option<Ref>, n: int)
    requires acroForm.Some? ==> acroForm.value in st.objects
    ensures var r := AcroFormStage(st, scan, acroForm, n);
      r.store.last != st.last ==> Patch(Ref(r.store.last, 0), FontBody) in r.store.patches
  {
  }

  /** The AcroForm stage is its three steps in turn, when step 1 does not raise. */
  lemma AcroFormStageSteps(st: Store, scan: Scanner, af: Ref, n: int, s1: Stage, b2: string, s3: Stage)
    requires af in st.objects
    requires FieldsStep(st, scan, st.Lookup(af).value, n) == Some(s1)
    requires b2 == NeedAppearancesStep(scan, s1.body)
    requires s3 == FontStep(s1.store, scan, b2)
    ensures var body := st.Lookup(af).value;
      AcroFormStage(st, scan, Some(af), n) == AcroResult(Registered, s3.store.ApplyPatch(af, s3.body, body), body, s3.body)
  {
  }

  /** How many patches an optional edit adds. */
  function Added(changed: bool): nat { if changed then 1 else 0 }

  /** Whether step 1 queued a patch of the `/Fields` array object. */
  predicate ArrayPatched(st: Store, scan: Scanner, body: string, n: int) {
    match FieldsShapeOf(scan, body)
    case IndirectFields(arr) =>
      st.Lookup(arr).Some? && scan.addRefToArray(st.Lookup(arr).value, Ref(n, 0)) != st.Lookup(arr).value
    case _ => false
  }

  /** Step 1 queues exactly the array patch, if any, and keeps the table and the counter. */
  lemma FieldsStepQueues(st: Store, scan: Scanner, body: string, n: int)
    requires FieldsStep(st, scan, body, n).Some?
    ensures var s1 := FieldsStep(st, scan, body, n).value.store;
      s1.objects == st.objects && s1.last == st.last && s1.allocator == st.allocator &&
      s1.patches[..|st.patches|] == st.patches &&
      |s1.patches| == |st.patches| + Added(ArrayPatched(st, scan, body, n))
  {
    var s1 := FieldsStep(st, scan, body, n).value.store;
    match FieldsShapeOf(scan, body)
    case IndirectFields(arr) =>
      var arrBody := st.Lookup(arr).value;
      ApplyPatchEffect(st, arr, scan.addRefToArray(arrBody, Ref(n, 0)), arrBody);
      assert s1.patches[..|st.patches|] == st.patches;
    case InlineFields =>
      assert s1.patches[..|st.patches|] == st.patches;
    case NoFields =>
      assert s1.patches[..|st.patches|] == st.patches;
  }

  /** Only a registration touches the ledger. */
  lemma AcroFormStageUnregistered(st: Store, scan: Scanner, acroForm: Option<Ref>, n: int)
    requires acroForm.Some? ==> acroForm.value in st.objects
    ensures var r := AcroFormStage(st, scan, acroForm, n);
      r.status != Registered ==> r.store == st
    ensures AcroFormStage(st, scan, acroForm, n).status == NoAcroForm <==> acroForm.None?
  {
  }

  /** The AcroForm step only ever queues: it keeps the table, the ledger's earlier patches, and the numbering. */
  lemma AcroFormStageExtends(st: Store, scan: Scanner, acroForm: Option<Ref>, n: int)
    requires acroForm.Some? ==> acroForm.value in st.objects
    requires st.Numbered() && AboveAll(st.allocator)
    ensures Extends(st, AcroFormStage(st, scan, acroForm, n).store)
    ensures AcroFormStage(st, scan, acroForm, n).store.Numbered()
  {
    AcroFormStageUnregistered(st, scan, acroForm, n);
    if AcroFormStage(st, scan, acroForm, n).status == Registered {
      AcroFormStagePatches(st, scan, acroForm, n);
    }
  }

  /**
   * A registration appends at most three patches, in this order: the `/Fields`
   * array object when it changed, a fresh font object, and the AcroForm itself
   * exactly when its text changed, which a later lookup then returns.
   */
  lemma AcroFormStagePatches(st: Store, scan: Scanner, acroForm: Option<Ref>, n: int)
    requires acroForm.Some? ==> acroForm.value in st.objects
    requires st.Numbered() && AboveAll(st.allocator)
    requires AcroFormStage(st, scan, acroForm, n).status == Registered
    ensures var r := AcroFormStage(st, scan, acroForm, n);
      var b1 := FieldsStep(st, scan, r.original, n).value.body;
      var font := !(Contains(NeedAppearancesStep(scan, b1), "/DR") && Contains(NeedAppearancesStep(scan, b1), "/Helv"));
      r.store.Numbered() && r.store.objects == st.objects &&
      r.store.patches[..|st.patches|] == st.patches &&
      |r.store.patches| == |st.patches| + Added(ArrayPatched(st, scan, r.original, n)) + Added(font) +
                           Added(r.patched != r.original)
  {
    AcroFormStageQueues(st, scan, acroForm, n);
  }

  /** The registration's patches, counted stage by stage; no freshness is needed for this. */
  lemma AcroFormStageQueues(st: Store, scan: Scanner, acroForm: Option<Ref>, n: int)
    requires acroForm.Some? ==> acroForm.value in st.objects
    requires AcroFormStage(st, scan, acroForm, n).status == Registered
    ensures var r := AcroFormStage(st, scan, acroForm, n);
      var b1 := FieldsStep(st, scan, r.original, n).value.body;
      var font := !(Contains(NeedAppearancesStep(scan, b1), "/DR") && Contains(NeedAppearancesStep(scan, b1), "/Helv"));
      Extends(st, r.store) &&
      |r.store.patches| == |st.patches| + Added(ArrayPatched(st, scan, r.original, n)) + Added(font) +
                           Added(r.patched != r.original)
  {
    var r := AcroFormStage(st, scan, acroForm, n);
    var af := acroForm.value;
    var s1 := FieldsStep(st, scan, r.original, n).value;
    var b2 := NeedAppearancesStep(scan, s1.body);
    var s3 := FontStep(s1.store, scan, b2);
    assert Extends(st, s1.store) && |s1.store.patches| == |st.patches| + Added(ArrayPatched(st, scan, r.original, n)) by {
      FieldsStepQueues(st, scan, r.original, n);
    }
    FontStepExtends(s1.store, scan, b2);
    ApplyPatchExtends(s3.store, af, s3.body, r.original);
    ExtendsTrans(st, s1.store, s3.store);
    ExtendsTrans(st, s3.store, r.store);
  }

  /** Step 3 queues the font, when it adds one, after the patches there are. */
  lemma FontStepExtends(st: Store, scan: Scanner, body: string)
    ensures var s := FontStep(st, scan, body).store;
      Extends(st, s) && |s.patches| == |st.patches| + Added(!(Contains(body, "/DR") && Contains(body, "/Helv")))
  {
    var s := FontStep(st, scan, body).store;
    if !(Contains(body, "/DR") && Contains(body, "/Helv")) {
      assert s.patches[..|st.patches|] == st.patches;
    }
  }

  /** When the AcroForm text changed, its patch is the last one queued and what a lookup returns. */
  lemma AcroFormStagePatchesLast(st: Store, scan: Scanner, acroForm: Option<Ref>, n: int)
    requires acroForm.Some? ==> acroForm.value in st.objects
    requires AcroFormStage(st, scan, acroForm, n).status == Registered
    ensures var r := AcroFormStage(st, scan, acroForm, n);
      r.patched != r.original ==>
        r.store.patches[|r.store.patches| - 1] == Patch(acroForm.value, r.patched) &&
        r.store.Lookup(acroForm.value) == Some(r.patched)
    ensures var r := AcroFormStage(st, scan, acroForm, n);
      r.original == st.Lookup(acroForm.value).value
  {
    var r := AcroFormStage(st, scan, acroForm, n);
    var s1 := FieldsStep(st, scan, r.original, n).value;
    var s3 := FontStep(s1.store, scan, NeedAppearancesStep(scan, s1.body));
    ApplyPatchEffect(s3.store, acroForm.value, s3.body, r.original);
  }

  /** An existing `/NeedAppearances`, even `false`, is left as it is; a missing one is upserted as `true`. */
  lemma NeedAppearancesKept(scan: Scanner, body: string)
    ensures Contains(body, "/NeedAppearances") ==> NeedAppearancesStep(scan, body) == body
    ensures !Contains(body, "/NeedAppearances") ==>
      NeedAppearancesStep(scan, body) == scan.upsertKeyValue(body, "/NeedAppearances", "true")
  {
  }
}
