/**
 * The AddField action: `call` allocates the field's object number, builds the
 * field dictionary and its widget annotation, queues both, registers the field
 * with the AcroForm and the widget with its page, and for a signature whose
 * value is image data asks for a signature appearance.
 *
 * `Transaction` is the whole of `call` as a function of the ledger; the class
 * `AddField` performs it step by step on a `Document`.
 */
module AddFieldAction {
  import opened Wrappers
  import opened Text
  import opened Patterns
  import opened Ledger
  import opened DictScan
  import opened Format
  import opened Builders
  import opened AcroForm
  import opened Annots

  /** What `call` hands to `AddSignatureAppearance.new(document, field_ref, image_data, width:, height:)`. */
  datatype AppearanceRequest = AppearanceRequest(fieldRef: Ref, imageData: string, width: int, height: int)

  /** `options[:metadata] || {}`. */
  function MetadataOf(o: Options): Metadata { o.metadata.GetOr([]) }

  /** The field dictionary `call` queues. */
  function FieldBody(scan: Scanner, name: string, o: Options): string {
    var s := Resolve(o);
    RenderDict(FieldEntries(scan.encodePdfString, name, MetadataOf(o), s.fieldType, s.value))
  }

  /** The widget annotation `call` queues for field object `n` on `page`. */
  function WidgetBody(scan: Scanner, o: Options, n: int, page: Option<Ref>): string {
    var s := Resolve(o);
    RenderDict(WidgetEntries(scan.encodePdfString, MetadataOf(o), Ref(n, 0), page, s.x, s.y, s.width, s.height,
                             s.fieldType, s.value))
  }

  /** The ledger once the field and the widget are queued, the field's number and its page. */
  datatype Draft = Draft(store: Store, num: int, page: Option<Ref>)

  function DraftOf(st: Store, scan: Scanner, pages: seq<Ref>, name: string, o: Options): (d: Draft)
    ensures d.store.objects == st.objects
  {
    var (st1, n) := st.Allocate();
    var page := PageOf(pages, Resolve(o).page);
    Draft(st1.Push(Ref(n, 0), FieldBody(scan, name, o)).Push(Ref(n + 1, 0), WidgetBody(scan, o, n, page)), n, page)
  }

  /** What `call` results in: whether it returned `true` (or raised), the ledger, and any appearance request. */
  datatype Outcome = Outcome(ok: bool, store: Store, appearance: Option<AppearanceRequest>)

  /** `call`: queue the field and the widget, then the AcroForm step, then the page step and the appearance. */
  function Transaction(st: Store, scan: Scanner, acroForm: Option<Ref>, pages: seq<Ref>, name: string, o: Options): Outcome
    requires acroForm.Some? ==> acroForm.value in st.objects
    requires forall i :: 0 <= i < |pages| ==> pages[i] in st.objects
  {
    var d := DraftOf(st, scan, pages, name, o);
    AfterAcroForm(d, AcroFormStage(d.store, scan, acroForm, d.num), scan, o)
  }

  /** The rest of `call` once its AcroForm step has given `a`: stop on a raise, else the page step and the appearance. */
  function AfterAcroForm(d: Draft, a: AcroResult, scan: Scanner, o: Options): Outcome
    requires d.page.Some? ==> d.page.value in a.store.objects
  {
    if a.status == Raised then Outcome(false, a.store, None)
    else
      var s := Resolve(o);
      Outcome(true, PageStage(a.store, scan, d.page, d.num + 1),
              if WantsAppearance(s.fieldType, s.value)
              then Some(AppearanceRequest(Ref(d.num, 0), s.value, s.width, s.height))
              else None)
  }

  /** `call` after its AcroForm step, for a given AcroForm result: it raises there, or it goes on. */
  lemma TransactionSteps(st: Store, scan: Scanner, acroForm: Option<Ref>, pages: seq<Ref>, name: string, o: Options,
                         d: Draft, a: AcroResult, t: Outcome)
    requires acroForm.Some? ==> acroForm.value in st.objects
    requires forall i :: 0 <= i < |pages| ==> pages[i] in st.objects
    requires d == DraftOf(st, scan, pages, name, o)
    requires a == AcroFormStage(d.store, scan, acroForm, d.num)
    requires t == Transaction(st, scan, acroForm, pages, name, o)
    ensures var s := Resolve(o);
      (a.status == Raised <==> !t.ok) &&
      (a.status == Raised ==> t.store == a.store && t.appearance.None?) &&
      (a.status != Raised ==>
         t.store == PageStage(a.store, scan, d.page, d.num + 1) &&
         t.appearance == if WantsAppearance(s.fieldType, s.value)
                         then Some(AppearanceRequest(Ref(d.num, 0), s.value, s.width, s.height)) else None)
  {
    assert t == AfterAcroForm(d, a, scan, o);
    if a.status == Raised {
      AfterAcroFormRaised(d, a, scan, o);
    } else {
      AfterAcroFormGoesOn(d, a, scan, o);
      AfterAcroFormAppearance(d, a, scan, o);
    }
  }

  lemma AfterAcroFormRaised(d: Draft, a: AcroResult, scan: Scanner, o: Options)
    requires d.page.Some? ==> d.page.value in a.store.objects
    requires a.status == Raised
    ensures var t := AfterAcroForm(d, a, scan, o); !t.ok && t.store == a.store && t.appearance.None?
  {
  }

  lemma AfterAcroFormGoesOn(d: Draft, a: AcroResult, scan: Scanner, o: Options)
    requires d.page.Some? ==> d.page.value in a.store.objects
    requires a.status != Raised
    ensures var t := AfterAcroForm(d, a, scan, o); t.ok && t.store == PageStage(a.store, scan, d.page, d.num + 1)
  {
    var p := PageStage(a.store, scan, d.page, d.num + 1);
    assert AfterAcroForm(d, a, scan, o) == Outcome(true, p, AfterAcroForm(d, a, scan, o).appearance);
  }

  lemma AfterAcroFormAppearance(d: Draft, a: AcroResult, scan: Scanner, o: Options)
    requires d.page.Some? ==> d.page.value in a.store.objects
    requires a.status != Raised
    ensures var s := Resolve(o);
      AfterAcroForm(d, a, scan, o).appearance == if WantsAppearance(s.fieldType, s.value)
        then Some(AppearanceRequest(Ref(d.num, 0), s.value, s.width, s.height)) else None
  {
  }

  /** The draft queues the field, then the widget, under the two numbers after every number in use. */
  lemma DraftQueues(st: Store, scan: Scanner, pages: seq<Ref>, name: string, o: Options)
    requires st.Numbered() && AboveAll(st.allocator)
    ensures var d := DraftOf(st, scan, pages, name, o);
      d.num == st.Fresh() && d.store.Numbered() && d.store.last == d.num &&
      d.store.patches == st.patches + [Patch(Ref(d.num, 0), FieldBody(scan, name, o)),
                                       Patch(Ref(d.num + 1, 0), WidgetBody(scan, o, d.num, d.page))] &&
      (forall r :: r in st.objects ==> r.num < d.num) &&
      (forall i :: 0 <= i < |st.patches| ==> st.patches[i].ref.num < d.num) &&
      d.store.Fresh() > d.num + 1
  {
    var d := DraftOf(st, scan, pages, name, o);
    var n := st.Fresh();
    assert d.store.patches[|st.patches| + 1].ref.num == n + 1;
  }

  /** Whatever `call` does after queueing the field and the widget only queues more, and keeps the numbering. */
  lemma TransactionExtendsDraft(st: Store, scan: Scanner, acroForm: Option<Ref>, pages: seq<Ref>,
                                name: string, o: Options)
    requires acroForm.Some? ==> acroForm.value in st.objects
    requires forall i :: 0 <= i < |pages| ==> pages[i] in st.objects
    requires st.Numbered() && AboveAll(st.allocator)
    ensures var t := Transaction(st, scan, acroForm, pages, name, o);
      Extends(DraftOf(st, scan, pages, name, o).store, t.store) && t.store.Numbered()
  {
    var d := DraftOf(st, scan, pages, name, o);
    DraftQueues(st, scan, pages, name, o);
    var a := AcroFormStage(d.store, scan, acroForm, d.num);
    AcroFormStageExtends(d.store, scan, acroForm, d.num);
    TransactionSteps(st, scan, acroForm, pages, name, o, d, a, Transaction(st, scan, acroForm, pages, name, o));
    if a.status != Raised {
      PageStageExtends(a.store, scan, d.page, d.num + 1);
      ExtendsTrans(d.store, a.store, PageStage(a.store, scan, d.page, d.num + 1));
    }
  }

  /**
   * Every `call` keeps the patches queued before it and then queues the field
   * dictionary and the widget annotation, in that order, under the fresh number
   * `N` and `N + 1`; before any step that can raise.
   */
  lemma TransactionQueuesFieldThenWidget(st: Store, scan: Scanner, acroForm: Option<Ref>, pages: seq<Ref>,
                                         name: string, o: Options)
    requires acroForm.Some? ==> acroForm.value in st.objects
    requires forall i :: 0 <= i < |pages| ==> pages[i] in st.objects
    requires st.Numbered() && AboveAll(st.allocator)
    ensures var t := Transaction(st, scan, acroForm, pages, name, o); var n := st.Fresh(); var k := |st.patches|;
      t.store.objects == st.objects && t.store.Numbered() &&
      |t.store.patches| >= k + 2 && t.store.patches[..k] == st.patches &&
      t.store.patches[k] == Patch(Ref(n, 0), FieldBody(scan, name, o)) &&
      t.store.patches[k + 1] == Patch(Ref(n + 1, 0), WidgetBody(scan, o, n, PageOf(pages, Resolve(o).page)))
  {
    var d := DraftOf(st, scan, pages, name, o);
    DraftQueues(st, scan, pages, name, o);
    TransactionExtendsDraft(st, scan, acroForm, pages, name, o);
    ExtendsQueued(st, d.store, Transaction(st, scan, acroForm, pages, name, o).store,
                  Patch(Ref(d.num, 0), FieldBody(scan, name, o)), Patch(Ref(d.num + 1, 0), WidgetBody(scan, o, d.num, d.page)));
  }

  /**
   * The widget points at the field through `/Parent N 0 R`, carries
   * `/P` for the page exactly when `find_page_by_number` found one (unless the
   * metadata supplies a `/P`), has `/F 4` once, and has `/V` iff the field does.
   */
  lemma WidgetPointsAtFieldAndPage(scan: Scanner, o: Options, n: int, pages: seq<Ref>)
    ensures var page := PageOf(pages, Resolve(o).page); var s := Resolve(o);
      var es := WidgetEntries(scan.encodePdfString, MetadataOf(o), Ref(n, 0), page, s.x, s.y, s.width, s.height, s.fieldType, s.value);
      WidgetBody(scan, o, n, page) == RenderDict(es) &&
      Contains(WidgetBody(scan, o, n, page), Line(Entry("/Parent", RefText(Ref(n, 0))))) &&
      (1 <= s.page <= |pages| ==> Contains(WidgetBody(scan, o, n, page), Line(Entry("/P", RefText(pages[s.page - 1]))))) &&
      (KeyCount(es, "/P") > KeyCount(MetaEntries(scan.encodePdfString, MetadataOf(o), true), "/P") <==> 1 <= s.page <= |pages|) &&
      KeyCount(es, "/F") == 1 &&
      (KeyCount(es, "/V") == 1 <==> WritesValue(s.fieldType, s.value))
  {
    var s := Resolve(o);
    var page := PageOf(pages, s.page);
    WidgetShowsParentAndPage(scan.encodePdfString, MetadataOf(o), Ref(n, 0), page, s.x, s.y, s.width, s.height, s.fieldType, s.value);
    WidgetEntriesFacts(scan.encodePdfString, MetadataOf(o), Ref(n, 0), page, s.x, s.y, s.width, s.height, s.fieldType, s.value);
  }

  /** The rendered widget shows its `/Parent` line, and its `/P` line when there is a page. */
  lemma WidgetShowsParentAndPage(encode: string -> string, md: Metadata, parent: Ref, page: Option<Ref>,
                                 x: int, y: int, width: int, height: int, fieldType: string, value: string)
    ensures var d := RenderDict(WidgetEntries(encode, md, parent, page, x, y, width, height, fieldType, value));
      Contains(d, Line(Entry("/Parent", RefText(parent)))) &&
      (page.Some? ==> Contains(d, Line(Entry("/P", RefText(page.value)))))
  {
    var es := WidgetEntries(encode, md, parent, page, x, y, width, height, fieldType, value);
    WidgetEntriesFacts(encode, md, parent, page, x, y, width, height, fieldType, value);
    EntryShown(es, 2);
    if page.Some? {
      EntryShown(es, 3);
    }
  }


  /**
   * `call` returns `true` unless the AcroForm step raises; it asks for a
   * signature appearance exactly when it returns and the type is `/Sig` with
   * image data as the value, handing over the field reference, the value and
   * the size. Without an AcroForm it still returns `true`.
   */
  lemma TransactionOutcome(st: Store, scan: Scanner, acroForm: Option<Ref>, pages: seq<Ref>, name: string, o: Options)
    requires acroForm.Some? ==> acroForm.value in st.objects
    requires forall i :: 0 <= i < |pages| ==> pages[i] in st.objects
    ensures var t := Transaction(st, scan, acroForm, pages, name, o); var d := DraftOf(st, scan, pages, name, o);
      (t.ok <==> AcroFormStage(d.store, scan, acroForm, d.num).status != Raised) &&
      (acroForm.None? ==> t.ok && t.store == PageStage(d.store, scan, d.page, d.num + 1)) &&
      (!t.ok ==> t.store == d.store && t.appearance.None?)
    ensures var t := Transaction(st, scan, acroForm, pages, name, o); var s := Resolve(o);
      (t.appearance.Some? <==> t.ok && s.fieldType == "/Sig" && s.value != "" && LooksLikeImageData(s.value)) &&
      (t.appearance.Some? ==>
         t.appearance.value == AppearanceRequest(Ref(st.Fresh(), 0), s.value, s.width, s.height))
  {
    var d := DraftOf(st, scan, pages, name, o);
    AcroFormStageUnregistered(d.store, scan, acroForm, d.num);
    TransactionSteps(st, scan, acroForm, pages, name, o, d, AcroFormStage(d.store, scan, acroForm, d.num),
                     Transaction(st, scan, acroForm, pages, name, o));
  }

  /**
   * A `/Fields` value token that raises in the AcroForm step makes `call`
   * raise only when the array object it names has no body.
   */
  lemma TransactionRaisesOnlyForMissingArray(st: Store, scan: Scanner, acroForm: Option<Ref>, pages: seq<Ref>,
                                             name: string, o: Options)
    requires acroForm.Some? ==> acroForm.value in st.objects
    requires forall i :: 0 <= i < |pages| ==> pages[i] in st.objects
    ensures var t := Transaction(st, scan, acroForm, pages, name, o); var d := DraftOf(st, scan, pages, name, o);
      !t.ok <==>
        acroForm.Some? &&
        var body := d.store.Lookup(acroForm.value).value;
        FieldsShapeOf(scan, body).IndirectFields? && d.store.Lookup(FieldsShapeOf(scan, body).arrayRef).None?
  {
    var d := DraftOf(st, scan, pages, name, o);
    AcroFormStageUnregistered(d.store, scan, acroForm, d.num);
    if acroForm.Some? {
      FieldsStepBranches(d.store, scan, d.store.Lookup(acroForm.value).value, d.num);
    }
  }

  /**
   * When the AcroForm step has to add the Helvetica font, the font object is
   * queued right after the field, the widget and any `/Fields` array patch,
   * under a number above the widget's and every original object's.
   */
  lemma TransactionFontIsFresh(st: Store, scan: Scanner, acroForm: Option<Ref>, pages: seq<Ref>, name: string, o: Options)
    requires acroForm.Some? ==> acroForm.value in st.objects
    requires forall i :: 0 <= i < |pages| ==> pages[i] in st.objects
    requires st.Numbered() && AboveAll(st.allocator)
    ensures var d := DraftOf(st, scan, pages, name, o); var a := AcroFormStage(d.store, scan, acroForm, d.num);
      a.status == Registered ==>
        var b2 := NeedAppearancesStep(scan, FieldsStep(d.store, scan, a.original, d.num).value.body);
        !(Contains(b2, "/DR") && Contains(b2, "/Helv")) ==>
          var k := |st.patches| + 2 + Added(ArrayPatched(d.store, scan, a.original, d.num));
          k < |a.store.patches| && a.store.patches[k].body == FontBody && a.store.patches[k].ref.gen == 0 &&
          a.store.patches[k].ref.num > d.num + 1 &&
          (forall r :: r in st.objects ==> r.num < a.store.patches[k].ref.num)
  {
    var d := DraftOf(st, scan, pages, name, o);
    var a := AcroFormStage(d.store, scan, acroForm, d.num);
    if a.status == Registered {
      var s1 := FieldsStep(d.store, scan, a.original, d.num).value;
      var b2 := NeedAppearancesStep(scan, s1.body);
      if !(Contains(b2, "/DR") && Contains(b2, "/Helv")) {
        var k := |st.patches| + 2 + Added(ArrayPatched(d.store, scan, a.original, d.num));
        assert s1.store.Numbered() && AboveAll(s1.store.allocator) && s1.store.objects == st.objects &&
               |s1.store.patches| == k && s1.store.patches[|st.patches| + 1].ref.num == d.num + 1 by {
          DraftQueues(st, scan, pages, name, o);
          FieldsStepQueues(d.store, scan, a.original, d.num);
          assert s1.store.patches[|st.patches| + 1] == d.store.patches[|st.patches| + 1];
        }
        var s3 := FontStep(s1.store, scan, b2);
        var f := s1.store.Fresh();
        assert s3.store.patches == s1.store.patches + [Patch(Ref(f, 0), FontBody)] && f > d.num + 1 &&
               (forall r :: r in st.objects ==> r.num < f) by {
          FontStepQueuesFreshFont(s1.store, scan, b2);
        }
        assert a.store.patches[k] == s3.store.patches[k] by {
          ApplyPatchEffect(s3.store, acroForm.value, s3.body, a.original);
        }
      }
    }
  }

  /**
   * Under a bare counter the font gets the widget's number `N + 1`: the counter
   * stands at `N` after the field's allocation, and the widget is queued
   * without one.
   */
  lemma CounterAllocatorReusesWidgetNumber(st: Store, scan: Scanner, acroForm: Option<Ref>, pages: seq<Ref>,
                                           name: string, o: Options)
    requires acroForm.Some? ==> acroForm.value in st.objects
    requires st.allocator == CounterAllocator
    ensures var d := DraftOf(st, scan, pages, name, o); var a := AcroFormStage(d.store, scan, acroForm, d.num);
      d.store.patches[|st.patches| + 1].ref == Ref(d.num + 1, 0) &&
      (a.status == Registered ==>
        var b2 := NeedAppearancesStep(scan, FieldsStep(d.store, scan, a.original, d.num).value.body);
        !(Contains(b2, "/DR") && Contains(b2, "/Helv")) ==>
          var k := |st.patches| + 2 + Added(ArrayPatched(d.store, scan, a.original, d.num));
          k < |a.store.patches| && a.store.patches[k] == Patch(Ref(d.num + 1, 0), FontBody))
  {
    var d := DraftOf(st, scan, pages, name, o);
    var a := AcroFormStage(d.store, scan, acroForm, d.num);
    if a.status == Registered {
      var s1 := FieldsStep(d.store, scan, a.original, d.num).value;
      var b2 := NeedAppearancesStep(scan, s1.body);
      if !(Contains(b2, "/DR") && Contains(b2, "/Helv")) {
        var k := |st.patches| + 2 + Added(ArrayPatched(d.store, scan, a.original, d.num));
        var s3 := FontStep(s1.store, scan, b2);
        assert |s1.store.patches| == k && s1.store.Fresh() == d.num + 1 by {
          FieldsStepQueues(d.store, scan, a.original, d.num);
        }
        assert s3.store.patches == s1.store.patches + [Patch(Ref(d.num + 1, 0), FontBody)];
        assert a.store.patches[k] == s3.store.patches[k] by {
          ApplyPatchEffect(s3.store, acroForm.value, s3.body, a.original);
        }
      }
    }
  }

  /** The action object: the document it edits, its collaborators and arguments, and what `call` records. */
  class AddField {
    const document: Document
    const scan: Scanner
    const name: string
    const options: Options
    const metadata: Metadata := MetadataOf(options)
    var fieldObjNum: Option<int>
    var fieldType: Option<string>
    var fieldValue: Option<string>

    /** `AddField.new(document, name, options)`. */
    constructor(document: Document, scan: Scanner, name: string, options: Options)
      ensures this.document == document && this.scan == scan && this.name == name && this.options == options
      ensures fieldObjNum.None? && fieldType.None? && fieldValue.None?
    {
      this.document := document;
      this.scan := scan;
      this.name := name;
      this.options := options;
      this.fieldObjNum := None;
      this.fieldType := None;
      this.fieldValue := None;
    }

    /** `create_field_dictionary(value, type)`. */
    method CreateFieldDictionary(value: string, fieldType: string) returns (dict: string)
      ensures dict == RenderDict(FieldEntries(scan.encodePdfString, name, metadata, fieldType, value))
    {
      var encode := scan.encodePdfString;
      dict := "<<\n";
      dict := dict + Line(Entry("/FT", fieldType));
      dict := dict + Line(Entry("/T", encode(name)));
      var fieldFlags := FieldFlags(metadata);
      dict := dict + Line(Entry("/Ff", InterpolatedText(encode, fieldFlags)));
      dict := dict + Line(Entry("/DA", HelvAppearance));
      ghost var head := dict;
      var shouldSetValue := ShouldSetValue(fieldType, value);
      if shouldSetValue && value != "" {
        LinesOne(Entry("/V", encode(value)));
        dict := dict + Line(Entry("/V", encode(value)));
      } else {
        assert dict == dict + Lines([]);
      }
      ghost var lead := head + Lines(ValueEntry(encode, fieldType, value));
      assert dict == lead;
      var i := 0;
      while i < |metadata|
        invariant 0 <= i <= |metadata|
        invariant dict == lead + Lines(MetaEntries(encode, metadata[..i], false))
      {
        var (key, val) := metadata[i];
        MetaLoopStep(encode, metadata, i, false, dict, lead);
        if !IsFfKey(key) {
          var pdfKey := FormatPdfKey(key);
          var pdfValue := FormatPdfValue(encode, val);
          dict := dict + Line(Entry(pdfKey, pdfValue));
        }
        i := i + 1;
      }
      assert metadata[..i] == metadata;
      DictText4(Entry("/FT", fieldType), Entry("/T", encode(name)), Entry("/Ff", InterpolatedText(encode, fieldFlags)),
                Entry("/DA", HelvAppearance), ValueEntry(encode, fieldType, value),
                MetaEntries(encode, metadata, false), head, dict);
      dict := dict + ">>";
    }

    /** `create_widget_annotation_with_parent(widget_obj_num, parent_ref, page_ref, x, y, width, height, type, value)`. */
    method CreateWidgetAnnotationWithParent(widgetNum: int, parent: Ref, page: Option<Ref>, x: int, y: int,
                                            width: int, height: int, fieldType: string, value: string)
      returns (widget: string)
      ensures widget == RenderDict(WidgetEntries(scan.encodePdfString, metadata, parent, page, x, y, width, height,
                                                 fieldType, value))
    {
      var encode := scan.encodePdfString;
      var rect := RectText(x, y, width, height);
      widget := "<<\n";
      widget := widget + Line(Entry("/Type", "/Annot"));
      widget := widget + Line(Entry("/Subtype", "/Widget"));
      widget := widget + Line(Entry("/Parent", RefText(parent)));
      ghost var top := widget;
      if page.Some? {
        LinesOne(Entry("/P", RefText(page.value)));
        widget := widget + Line(Entry("/P", RefText(page.value)));
      } else {
        assert widget == widget + Lines([]);
      }
      ghost var pageLine: seq<Entry> := if page.Some? then [Entry("/P", RefText(page.value))] else [];
      assert widget == top + Lines(pageLine);
      widget := widget + Line(Entry("/FT", fieldType));
      widget := widget + Line(Entry("/Rect", rect));
      widget := widget + Line(Entry("/F", "4"));
      widget := widget + Line(Entry("/DA", HelvAppearance));
      ghost var head := widget;
      var shouldSetValue := ShouldSetValue(fieldType, value);
      if shouldSetValue && value != "" {
        LinesOne(Entry("/V", encode(value)));
        widget := widget + Line(Entry("/V", encode(value)));
      } else {
        assert widget == widget + Lines([]);
      }
      ghost var lead := head + Lines(ValueEntry(encode, fieldType, value));
      assert widget == lead;
      var i := 0;
      while i < |metadata|
        invariant 0 <= i <= |metadata|
        invariant widget == lead + Lines(MetaEntries(encode, metadata[..i], true))
      {
        var (key, val) := metadata[i];
        MetaLoopStep(encode, metadata, i, true, widget, lead);
        var pdfKey := FormatPdfKey(key);
        var pdfValue := FormatPdfValue(encode, val);
        if pdfKey != "/F" && pdfKey != "/V" {
          widget := widget + Line(Entry(pdfKey, pdfValue));
        }
        i := i + 1;
      }
      assert metadata[..i] == metadata;
      DictText34(Entry("/Type", "/Annot"), Entry("/Subtype", "/Widget"), Entry("/Parent", RefText(parent)), pageLine,
                 Entry("/FT", fieldType), Entry("/Rect", rect), Entry("/F", "4"), Entry("/DA", HelvAppearance),
                 ValueEntry(encode, fieldType, value), MetaEntries(encode, metadata, true), top, head, widget);
      widget := widget + ">>";
    }

    /** `add_field_to_acroform_with_defaults(field_obj_num)`; the status says whether it returned or raised. */
    method AddFieldToAcroformWithDefaults(n: int) returns (status: AcroStatus)
      requires document.Valid()
      modifies document
      ensures document.Valid()
      ensures var r := AcroFormStage(old(document.State()), scan, document.acroForm, n);
        document.State() == r.store && status == r.status
    {
      ghost var st0 := document.State();
      if document.acroForm.None? {
        return NoAcroForm;
      }
      var af := document.acroForm.value;
      LookupOfOriginal(st0, af);
      var found := document.GetObjectBodyWithPatch(af);
      var afBody := found.value;
      var patched := afBody;
      // Step 1: the field goes into /Fields.
      var fieldsTok := scan.valueTokenAfter("/Fields", patched);
      if fieldsTok.Some? && RefTokenAt(fieldsTok.value, 0).Some? {
        var arrRef := RefOfMatch(RefTokenAt(fieldsTok.value, 0).value);
        var arrBody := document.GetObjectBodyWithPatch(arrRef);
        if arrBody.None? {
          assert FieldsStep(st0, scan, afBody, n).None?;
          return Raised;
        }
        var newBody := scan.addRefToArray(arrBody.value, Ref(n, 0));
        document.ApplyPatch(arrRef, newBody, arrBody.value);
      } else if Contains(patched, "/Fields") {
        patched := scan.addRefToInlineArray(patched, "/Fields", Ref(n, 0));
      } else {
        patched := scan.upsertKeyValue(patched, "/Fields", NewFieldsArray(n));
      }
      ghost var s1 := Stage(document.State(), patched);
      assert FieldsStep(st0, scan, afBody, n) == Some(s1);
      // Step 2: /NeedAppearances.
      if !Contains(patched, "/NeedAppearances") {
        patched := scan.upsertKeyValue(patched, "/NeedAppearances", "true");
      }
      ghost var b2 := patched;
      assert b2 == NeedAppearancesStep(scan, s1.body);
      // Step 3: the Helvetica font under /DR.
      if !(Contains(patched, "/DR") && Contains(patched, "/Helv")) {
        FontStepAdds(s1.store, scan, b2);
        var fontNum := document.NextFreshObjectNumber();
        document.PushPatch(Ref(fontNum, 0), FontBody);
        if Contains(patched, "/DR") {
          var drTok := scan.valueTokenAfter("/DR", patched);
          if drTok.Some? && StartsWith(drTok.value, "<<") {
            if !Contains(drTok.value, "/Font") {
              var newDrTok := WithFont(drTok.value, fontNum);
              patched := ReplaceFirst(patched, drTok.value, newDrTok);
            }
          } else {
            patched := scan.replaceKeyValue(patched, "/DR", FontResources(fontNum));
          }
        } else {
          patched := scan.upsertKeyValue(patched, "/DR", FontResources(fontNum));
        }
        DrStepBranches(scan, b2, fontNum);
        assert patched == DrStep(scan, b2, fontNum);
      }
      ghost var s3 := Stage(document.State(), patched);
      assert FontStep(s1.store, scan, b2) == s3;
      AcroFormStageSteps(st0, scan, af, n, s1, b2, s3);
      document.ApplyPatch(af, patched, afBody);
      return Registered;
    }

    /** `add_widget_to_page(widget_obj_num, page_num)`. */
    method AddWidgetToPage(w: int, pageNum: int) returns (ok: bool)
      requires document.Valid()
      modifies document
      ensures document.Valid()
      ensures ok <==> document.FindPageByNumber(pageNum).Some?
      ensures document.State() == PageStage(old(document.State()), scan, document.FindPageByNumber(pageNum), w)
    {
      var target := document.FindPageByNumber(pageNum);
      if target.None? {
        return false;
      }
      ghost var st0 := document.State();
      var pageRef := target.value;
      LookupOfOriginal(st0, pageRef);
      var found := document.GetObjectBodyWithPatch(pageRef);
      var pageBody := found.value;
      var tok := WidgetToken(w);
      var newBody: string;
      ghost var s := AnnotsStep(st0, scan, pageBody, w);
      match FirstInlineArray(pageBody, true) {
        case Some(m) =>
          AnnotsStepInline(st0, scan, pageBody, w, m);
          var result := scan.addRefToInlineArray(pageBody, "/Annots", Ref(w, 0));
          if result != pageBody {
            newBody := result;
          } else {
            var newAnnots := if Strip(m.inner) == [] then "[" + tok + "]" else "[" + m.inner + " " + tok + "]";
            assert newAnnots == NewAnnots(m.inner, tok);
            newBody := InlineFallback(pageBody, newAnnots);
          }
        case None =>
          match FirstIndirectArray(pageBody) {
            case Some(im) =>
              AnnotsStepIndirect(st0, scan, pageBody, w, im);
              var arrRef := RefOfMatch(im.ref);
              var arrBody := document.GetObjectBodyWithPatch(arrRef);
              if arrBody.Some? {
                document.ApplyPatch(arrRef, ArrayBodyWith(arrBody.value, tok), arrBody.value);
                newBody := pageBody;
              } else {
                newBody := IndirectRewrite(pageBody, im, tok);
              }
            case None =>
              AnnotsStepAbsent(st0, scan, pageBody, w);
              AbsentBodyIsReverseSub(pageBody, tok);
              if Contains(pageBody, ">>") {
                newBody := Reverse(ReplaceFirst(Reverse(pageBody), Reverse(">>"), Reverse("/Annots [" + tok + "]>>")));
              } else {
                newBody := pageBody + " /Annots [" + tok + "]";
              }
              assert newBody == AbsentBody(pageBody, tok);
          }
      }
      assert s == Stage(document.State(), newBody);
      PageStageFound(st0, scan, pageRef, w, s);
      if newBody != pageBody {
        document.ApplyPatch(pageRef, newBody, pageBody);
      }
      return true;
    }

    /**
     * The middle of `call`: allocate the field's number, build the field
     * dictionary and the widget (with `/P` for the page `find_page_ref` finds),
     * and queue both.
     */
    method QueueFieldAndWidget(s: Settings) returns (n: int)
      requires s == Resolve(options)
      requires document.Valid()
      modifies document
      ensures var d := DraftOf(old(document.State()), scan, document.pages, name, options);
        document.State() == d.store && n == d.num
      ensures document.Valid()
    {
      n := document.NextFreshObjectNumber();
      var widgetNum := n + 1;
      var fieldBody := CreateFieldDictionary(s.value, s.fieldType);
      assert fieldBody == FieldBody(scan, name, options);
      var pageRef := document.FindPageByNumber(s.page);
      var widgetBody := CreateWidgetAnnotationWithParent(widgetNum, Ref(n, 0), pageRef, s.x, s.y, s.width, s.height,
                                                         s.fieldType, s.value);
      assert widgetBody == WidgetBody(scan, options, n, pageRef);
      document.PushPatch(Ref(n, 0), fieldBody);
      document.PushPatch(Ref(widgetNum, 0), widgetBody);
    }

    /** `call`. */
    method Call() returns (ok: bool, appearance: Option<AppearanceRequest>)
      requires document.Valid()
      modifies this, document
      ensures var t := Transaction(old(document.State()), scan, document.acroForm, document.pages, name, options);
        document.State() == t.store && ok == t.ok && appearance == t.appearance
      ensures document.Valid()
      ensures fieldObjNum == Some(old(document.State()).Fresh())
      ensures fieldType == Some(Resolve(options).fieldType) && fieldValue == Some(Resolve(options).value)
    {
      ghost var st0 := document.State();
      var x := options.x.GetOr(100);
      var y := options.y.GetOr(500);
      var width := options.width.GetOr(100);
      var height := options.height.GetOr(20);
      var pageNum := options.page.GetOr(1);
      var typeInput := options.fieldType.GetOr(Str("/Tx"));
      var ft := NormalizeType(typeInput);
      fieldType := Some(ft);
      var value := options.value.GetOr("");
      fieldValue := Some(value);

      assert Settings(x, y, width, height, pageNum, ft, value) == Resolve(options);
      var n := QueueFieldAndWidget(Settings(x, y, width, height, pageNum, ft, value));
      fieldObjNum := Some(n);
      var widgetNum := n + 1;

      var status := AddFieldToAcroformWithDefaults(n);
      ghost var a := AcroFormStage(DraftOf(st0, scan, document.pages, name, options).store, scan, document.acroForm, n);
      assert document.State() == a.store && status == a.status;
      TransactionSteps(st0, scan, document.acroForm, document.pages, name, options,
                       DraftOf(st0, scan, document.pages, name, options), a,
                       Transaction(st0, scan, document.acroForm, document.pages, name, options));
      if status == Raised {
        ok, appearance := false, None;
        return;
      }
      assert document.FindPageByNumber(pageNum) == DraftOf(st0, scan, document.pages, name, options).page;
      var placed := AddWidgetToPage(widgetNum, pageNum);

      appearance := None;
      if WantsAppearance(ft, value) {
        appearance := Some(AppearanceRequest(Ref(n, 0), value, width, height));
      }
      ok := true;
    }
  }
}
