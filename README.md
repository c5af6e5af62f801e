# AddField, modelled in Dafny

This project models the AddField action of the acro_that PDF form library
(`AcroThat::Actions::AddField`). The action adds one interactive form field to
a PDF document held in memory, in a single sequential transaction:

- it reads the options, with their defaults, and normalises the field type
  (`:text`, `"button"`, `"/sig"`, … become `/Tx`, `/Btn`, `/Ch`, `/Sig`);
- it allocates a fresh object number `N` for the field dictionary, and uses
  `N + 1` for its widget annotation;
- it builds both dictionaries as text: `/FT`, `/T`, `/Ff`, `/DA`, an optional
  `/V` and the metadata entries for the field; `/Type /Annot /Subtype /Widget`,
  `/Parent N 0 R`, an optional `/P`, `/FT`, `/Rect`, `/F 4`, `/DA`, an optional
  `/V` and the widget metadata for the widget;
- it queues both objects on the document's patch ledger;
- it registers the field in the AcroForm. The field goes into `/Fields`, in
  either its indirect or its inline form, or a new `/Fields` is created.
  `/NeedAppearances true` is added only when the key is missing. A Helvetica
  font is minted and wired into `/DR /Font /Helv` when it is missing;
- it appends the widget to the page's `/Annots`. The page may hold an inline
  array, a reference to an array object, or no `/Annots` at all;
- for a signature whose value looks like image data, it asks for a signature
  appearance.

The model is organised as the program is:

| file | module | what it holds |
|---|---|---|
| wrappers.dfy | `Wrappers` | `Option`, and Ruby's `x \|\| default` as `GetOr` |
| text.dfy | `Text` | Ruby string operations the action uses: `include?`, `index`, `sub` (first and last match), `reverse`, `strip`, `chomp`, `split`/`join` |
| numerals.dfy | `Numerals` | decimal text of integers, and Ruby's `Integer(...)` on a digit string (which reads a leading `0` as octal) |
| patterns.dfy | `Patterns` | the action's regular expressions as explicit recognisers: `\A(\d+)\s+(\d+)\s+R`, `/Annots\s*\[(.*?)\]` with and without the `m` flag, `/Annots\s+(\d+)\s+(\d+)\s+R`, and the line-anchored base64 test |
| dictscan.dfy | `DictScan` | the `DictScan` helpers, as a record of arbitrary string functions |
| format.dfy | `Format` | `format_pdf_key` and `format_pdf_value` |
| ledger.dfy | `Ledger` | the document: the original object table, the patch ledger, the fresh-number counter, the page list; `Store` is its value and `Document` the class whose methods the action calls |
| builders.dfy | `Builders` | options and defaults, type normalisation, `should_set_value`, and the field and widget dictionaries as entry lists |
| acroform.dfy | `AcroForm` | `add_field_to_acroform_with_defaults` as a function of the ledger, stage by stage |
| annots.dfy | `Annots` | `add_widget_to_page` as a function of the ledger, branch by branch |
| addfield.dfy | `AddFieldAction` | `call` as a whole (`Transaction`), and the class `AddField` that performs it step by step on a `Document` |

The class `AddField` keeps the source's form: `call`, the two builders and the
two registration steps are methods. They change the document's ledger through
`PushPatch`, `ApplyPatch` and `NextFreshObjectNumber`. The builders accumulate
the dictionary text in loops over the metadata. Each method's `ensures` ties
what it does to a function of the old state. The properties are then proved
about those functions.

The `DictScan` helpers (`value_token_after`, `add_ref_to_array`,
`add_ref_to_inline_array`, `upsert_key_value`, `replace_key_value`,
`encode_pdf_string`) are not part of this model. They are the fields of a
`Scanner` value handed to the action, so every property below holds whatever
they compute. `find_page_by_number` is modelled as indexing a fixed page list
counted from 1. `next_fresh_object_number` is not part of this model either:
it is an `allocator` function of the ledger's patches and counter, handed to
the document, and the counter then remembers the number it returns. Every
freshness property below is stated under the hypothesis `AboveAll`: the
allocator returns a number above the counter and above every queued object
number. The widget's `N + 1` is queued without an allocation, so a plain
counter does not meet the hypothesis; `CounterAllocatorReusesWidgetNumber`
shows that the font then gets the number `N + 1`.

## Model

| member | source | states |
|---|---|---|
| Builders.NormalizeTypeIff | lib/acro_that/actions/add_field.rb:26-38 | each field type is produced by exactly its listed aliases, plus the symbol spelling of the PDF name itself, whose `to_s` is that name; there is no other case folding |
| Builders.NormalizeTypePassesThrough | lib/acro_that/actions/add_field.rb:36-37 | any input outside the listed aliases is used as its `to_s` |
| Builders.ResolveDefaults | lib/acro_that/actions/add_field.rb:19-39 | with no options the field is a `/Tx` of 100 by 20 at (100, 500) on page 1 with the empty value |
| Builders.ResolveKeepsGiven | lib/acro_that/actions/add_field.rb:19-39 | every given option is used as given; the type is used after normalisation |
| Builders.WritesValueIff | lib/acro_that/actions/add_field.rb:93-102 | `/V` is written iff the value is non-empty and it is not a `/Sig` with image data; for a non-empty value this is exactly the negation of the appearance test at line 65-68; image data means a `data:image/` prefix, or more than 50 characters with some line made only of base64 characters and at most two trailing `=` |
| Builders.FieldFlagsSource | lib/acro_that/actions/add_field.rb:88 | `/Ff` is the metadata's `:Ff` entry if there is one, else its `"Ff"` entry, else 0 |
| Builders.MetaKeyCount | lib/acro_that/actions/add_field.rb:104-111 | the metadata loop writes a key `k` iff some copied metadata key formats to `k` |
| Builders.WidgetMetaSkipsFAndV | lib/acro_that/actions/add_field.rb:142-149 | the widget's metadata loop never writes `/F` or `/V` |
| Builders.EntryShown | lib/acro_that/actions/add_field.rb:83-113 | every entry of a dictionary appears as its own `  /Key value` line of the rendered text |
| Builders.FieldEntriesFacts | lib/acro_that/actions/add_field.rb:82-115 | the field dictionary starts with `/FT type`, `/T` encoded name, and `/Ff` flags; `/V` is the encoded value when it is written; `/Ff` occurs once unless a non-`Ff` metadata key formats to `/Ff`; `/V` occurs iff it is written or some metadata key formats to `/V` |
| Builders.WidgetEntriesFacts | lib/acro_that/actions/add_field.rb:117-153 | the widget has `/Parent` third and `/P` fourth when there is a page; `/P` occurs once per page plus once per widget-metadata `/P`; the `/Rect` is present; `/F` occurs exactly once; `/V` occurs once iff it is written |
| Builders.RectReadsBack | lib/acro_that/actions/add_field.rb:118 | the `/Rect` text reads back as the integers `[x, y, x + width, y + height]` |
| Builders.RefTextReadsBack | lib/acro_that/actions/add_field.rb:122 | a reference written as `num gen R` is recognised by the reference pattern, and its groups read back as the same numbers |
| Format.FormatPdfKey | lib/acro_that/actions/add_field.rb:285-288 | the key always starts with `/`; a key that already has one is kept, any other gets one in front |
| Format.FormatPdfKeyIdempotent | lib/acro_that/actions/add_field.rb:285-288 | formatting an already formatted key again, as a symbol or a string, changes nothing |
| Format.FormatIntRoundTrip | lib/acro_that/actions/add_field.rb:293-294 | an Integer is written as decimal text that reads back as the same integer, negative ones included |
| Format.FormatTextCases | lib/acro_that/actions/add_field.rb:295-302 | case table of the definition, a proof helper for the lemmas that follow: a string starting with `(`, `<` or `/` is written unchanged, and any other string is written through `encode_pdf_string` |
| Format.IntArrayRoundTrip | lib/acro_that/actions/add_field.rb:303-306 | an Array of integers is written as `[a b c]`, which reads back as the same list |
| Format.FormatDictIsStable | lib/acro_that/actions/add_field.rb:307-314 | a Hash is written between `<<\n` and `\n>>`, and such text is written unchanged when it is formatted again as a string |
| Numerals.IntToString | lib/acro_that/actions/add_field.rb:294 | `to_s` of an integer is non-empty, starts with `-` exactly for a negative, and is otherwise made of digits |
| Numerals.IntRoundTrip | lib/acro_that/actions/add_field.rb:294 | the decimal text of an integer reads back as it |
| Numerals.RubyIntegerOfCanonical | lib/acro_that/actions/add_field.rb:168 | `Integer` of a decimal numeral without leading zeros gives its decimal value |
| Numerals.RubyIntegerReadsLeadingZeroAsOctal | lib/acro_that/actions/add_field.rb:168 | `Integer("010")` is 8, not 10, and `Integer("09")` raises |
| Patterns.RefTokenAtComplete | lib/acro_that/actions/add_field.rb:166 | `\A(\d+)\s+(\d+)\s+R` matches every text that starts with digits, whitespace, digits, whitespace, `R`, and captures those two digit runs |
| Patterns.RefTokenAtSound | lib/acro_that/actions/add_field.rb:166 | a match of `\A(\d+)\s+(\d+)\s+R` is such a text |
| Patterns.IndirectArrayAtComplete | lib/acro_that/actions/add_field.rb:244 | at a position holding `/Annots`, whitespace, digits, whitespace, digits, whitespace and `R`, the pattern `/Annots\s+(\d+)\s+(\d+)\s+R` matches there, captures the two digit runs and ends after the `R` |
| Patterns.IndirectArrayAtSound | lib/acro_that/actions/add_field.rb:244 | a match of that pattern is `/Annots`, a non-empty run of whitespace, and a text the reference pattern matches with the same groups |
| Patterns.FirstInlineArrayFromWithoutBracket | lib/acro_that/actions/add_field.rb:228 | a text without `[` has no match of the inline-array pattern anywhere |
| Patterns.InlineArrayAtComplete | lib/acro_that/actions/add_field.rb:228 | at a position holding `/Annots`, whitespace, `[`, text without `]` and `]`, the pattern matches, captures that text and ends after the `]`; without the `m` flag the text must also have no newline |
| Patterns.InlineArrayAtSound | lib/acro_that/actions/add_field.rb:228 | a match of the inline-array pattern is such a text |
| Patterns.Base64LineIff | lib/acro_that/actions/add_field.rb:68 | a line matches `^[A-Za-z0-9+/]*={0,2}$` iff it is base64 characters followed by nothing, `=` or `==` |
| Patterns.SomeBase64LineIff | lib/acro_that/actions/add_field.rb:68 | the base64 test succeeds iff some line of the value, with a line starting at 0 or after a newline, is such a line |
| Text.ContainsIff | lib/acro_that/actions/add_field.rb:172 | `include?` holds iff the text occurs at some position |
| Text.ReverseSubIsReplaceLast | lib/acro_that/actions/add_field.rb:274 | `s.reverse.sub(t.reverse, u.reverse).reverse` replaces the last occurrence of `t` by `u`, and leaves `s` alone when `t` does not occur |
| Text.StripEmptyIffBlank | lib/acro_that/actions/add_field.rb:237 | `strip.empty?` holds iff the text is made only of whitespace and NUL |
| Text.TrimStartFacts | lib/acro_that/actions/add_field.rb:254 | stripping the front removes exactly the leading run of whitespace and NUL |
| Text.TrimEndFacts | lib/acro_that/actions/add_field.rb:254 | stripping the end removes exactly the trailing whitespace and NUL |
| Text.Chomp | lib/acro_that/actions/add_field.rb:198 | `chomp(">>")` removes a trailing `>>`, and leaves any other text unchanged |
| Ledger.LookupPushSame | spec/form_editing_spec.rb:900-911 | a body queued for a reference is what the next lookup of that reference returns |
| Ledger.LookupPushOther | spec/form_editing_spec.rb:900-911 | queuing a body for one reference changes no other reference's lookup |
| Ledger.LookupOriginal | lib/acro_that/actions/add_field.rb:159 | with no patch queued for a reference, the lookup is its original body |
| Ledger.ApplyPatchEffect | lib/acro_that/actions/add_field.rb:211 | `apply_patch` leaves the ledger alone when the body is unchanged, and otherwise queues exactly the new body, which later lookups return |
| Ledger.FreshIsFresh | lib/acro_that/actions/add_field.rb:42 | under the `AboveAll` hypothesis on the allocator, a fresh number differs from every original and every queued object number |
| Ledger.AllocateAdvances | lib/acro_that/actions/add_field.rb:187 | under `AboveAll`, after an allocation the counter covers the table and the next fresh number is larger |
| Ledger.CounterAllocatorNotAboveAll | lib/acro_that/actions/add_field.rb:42-56 | a bare counter does not meet `AboveAll`: with `l + 1` queued at counter `l` it hands out `l + 1` again |
| Ledger.PageOf | lib/acro_that/actions/add_field.rb:215-218 | page `n` is found iff `1 <= n <= count`, and it is the `n`-th page |
| Ledger.Document.constructor | spec/form_editing_spec.rb:16-25 | a stand-in for `AcroThat::Document.new`: a document starts with an empty ledger, a counter at least every original number and the given allocator, which must meet `AboveAll`, and satisfies its invariant |
| Ledger.Document.FindPageByNumber | lib/acro_that/actions/add_field.rb:215-218 | `find_page_by_number` returns the `n`-th page, which has a body |
| Ledger.Document.GetObjectBodyWithPatch | lib/acro_that/actions/add_field.rb:159 | returns the body of the latest patch of the reference, else its original body |
| Ledger.Document.PushPatch | lib/acro_that/actions/add_field.rb:55-56 | appends one patch to the ledger and keeps the invariant |
| Ledger.Document.ApplyPatch | lib/acro_that/actions/add_field.rb:211 | appends the new body unless it equals the old one, and keeps the invariant |
| Ledger.Document.NextFreshObjectNumber | lib/acro_that/actions/add_field.rb:42 | returns the allocator's number for the current ledger and advances the counter to it |
| AcroForm.FieldsShapeOfWrittenRef | lib/acro_that/actions/add_field.rb:164-168 | a `/Fields` value token `num gen R...` names the array object `(num, gen)`, read as decimal |
| AcroForm.RefOfMatchAsWrittenReadsOctal | lib/acro_that/actions/add_field.rb:168 | the token `010 0 R` names object 10, but the action as written looks up object 8; for `09 0 R` it raises |
| AcroForm.FieldsStepAsWrittenMisreads | lib/acro_that/actions/add_field.rb:164-170 | for the `/Fields` token `010 0 R` step 1 as written patches array object 8 where the decimal reading patches object 10; for `09 0 R` it raises where the decimal reading patches object 9 |
| AcroForm.FieldsStepAsWrittenAgrees | lib/acro_that/actions/add_field.rb:164-178 | when the token spells its reference as the writer does, step 1 as written and step 1 with the decimal reading are the same |
| Annots.AnnotsStepAsWrittenMisreads | lib/acro_that/actions/add_field.rb:244-260 | for the page text `/Annots 010 0 R` the page step as written patches array object 8 where the decimal reading patches object 10; for `/Annots 09 0 R` it raises where the decimal reading patches object 9 |
| Annots.AnnotsStepAsWrittenAgrees | lib/acro_that/actions/add_field.rb:228-278 | unless an indirect `/Annots` spells a number with a leading zero, the page step as written and the page step with the decimal reading are the same |
| Annots.AnnotsShapeOfWrittenRef | lib/acro_that/actions/add_field.rb:244-246 | a page text without `[` that starts with `/Annots` and a reference as the writer spells it selects that very array object, read as decimal |
| Annots.IndirectAnnotsOf | lib/acro_that/actions/add_field.rb:228-246 | `/Annots a b R` for numerals `a`, `b` takes the indirect branch with `a` and `b` as the captured groups |
| AcroForm.RefOfMatchAsWrittenAgrees | lib/acro_that/actions/add_field.rb:168 | for numerals without leading zeros the written reading and the decimal reading agree |
| AcroForm.FieldsStepBranches | lib/acro_that/actions/add_field.rb:164-178 | case table of the definition, a proof helper for the lemmas that follow: exactly one branch is taken. An indirect `/Fields` patches the array object with `add_ref_to_array` and leaves the AcroForm text as it was, or raises when the array has no body. Inline `/Fields` goes through `add_ref_to_inline_array`. A missing `/Fields` is upserted as `[N 0 R]` |
| AcroForm.NeedAppearancesKept | lib/acro_that/actions/add_field.rb:180-183 | case table of the definition, a proof helper for the lemmas that follow: `/NeedAppearances true` is upserted only when the key is absent; an existing value, `false` included, is kept |
| AcroForm.FontStepQueuesFreshFont | lib/acro_that/actions/add_field.rb:185-189 | with `/DR` and `/Helv` present nothing happens; otherwise exactly one Helvetica font object is queued, under the allocator's number, which is fresh for the whole ledger under `AboveAll`, and the counter advances to it |
| AcroForm.FontStepAdds | lib/acro_that/actions/add_field.rb:186-208 | case table of the definition, a proof helper for the lemmas that follow: the font step queues the Helvetica font under the allocated number and then wires that number into `/DR` |
| AcroForm.DrStepBranches | lib/acro_that/actions/add_field.rb:191-208 | case table of the definition, a proof helper for the lemmas that follow: with no `/DR`, `/DR` is upserted with the font resources. A `/DR` that is not a dictionary is replaced with them. A `/DR` dictionary that already has `/Font` is left as it is, so the new font stays unreferenced |
| AcroForm.DrStepMergesFont | lib/acro_that/actions/add_field.rb:193-200 | a `/DR` dictionary without `/Font` has its first occurrence replaced by itself plus a `/Font << /Helv f 0 R >>` entry |
| AcroForm.WithFontEnds | lib/acro_that/actions/add_field.rb:198 | the extended `/DR` ends with `  /Font << /Helv f 0 R >>\n>>`, and it replaces the `>>` that closed it |
| AcroForm.FontResourcesNameFont | lib/acro_that/actions/add_field.rb:203 | the new resources dictionary maps `/Helv` to the new font object |
| AcroForm.AcroFormStage | lib/acro_that/actions/add_field.rb:155-213 | the AcroForm step never changes the original object table or the allocator |
| AcroForm.AcroFormStageCounter | lib/acro_that/actions/add_field.rb:185-189 | the AcroForm step moves the counter only to the number of the Helvetica font object it queues |
| AcroForm.AcroFormStageSteps | lib/acro_that/actions/add_field.rb:159-212 | case table of the definition, a proof helper for the lemmas that follow: the step is the `/Fields` stage, then the `/NeedAppearances` stage, then the font stage, then one `apply_patch` of the AcroForm against its body as read |
| AcroForm.AcroFormStageUnregistered | lib/acro_that/actions/add_field.rb:156-157 | it returns early exactly when there is no AcroForm; when it returns early or raises, it leaves the ledger alone |
| AcroForm.AcroFormStageExtends | lib/acro_that/actions/add_field.rb:155-213 | it only queues patches after the existing ones, and keeps numbers fresh |
| AcroForm.AcroFormStagePatches | lib/acro_that/actions/add_field.rb:155-213 | it queues one patch for an array object whose text changed, one for a new font, and one for a changed AcroForm, and no others |
| AcroForm.AcroFormStagePatchesLast | lib/acro_that/actions/add_field.rb:211 | a changed AcroForm is queued last and is what its lookup then returns; the unchanged text counts as the AcroForm's body as read |
| Annots.AnnotsStep | lib/acro_that/actions/add_field.rb:228-278 | the page step never changes the original table or the counter |
| Annots.IndirectStep | lib/acro_that/actions/add_field.rb:244-267 | the indirect branch never changes the original table or the counter |
| Annots.PageStage | lib/acro_that/actions/add_field.rb:220-281 | adding the widget to a page never changes the original table or the counter |
| Annots.AnnotsStepInline | lib/acro_that/actions/add_field.rb:228-243 | case table of the definition, a proof helper for the lemmas that follow: with an inline `/Annots` array, the page text becomes `add_ref_to_inline_array`'s result when that changed it, else the fallback rewrite |
| Annots.AnnotsStepIndirect | lib/acro_that/actions/add_field.rb:244-267 | case table of the definition, a proof helper for the lemmas that follow: with an indirect `/Annots`, a resolved array object is patched and the page text is kept; an unresolved one rewrites the page's `/Annots` into an inline array |
| Annots.AnnotsStepAbsent | lib/acro_that/actions/add_field.rb:268-278 | case table of the definition, a proof helper for the lemmas that follow: with no `/Annots` the page text gains `/Annots [w 0 R]` |
| Annots.PageStageFound | lib/acro_that/actions/add_field.rb:225-280 | case table of the definition, a proof helper for the lemmas that follow: for a found page, the step applies its branch, then patches the page only if its text changed |
| Annots.PageStagePatches | lib/acro_that/actions/add_field.rb:220-281 | a missing page changes nothing. Otherwise at most one patch is queued after the existing ones. With no `/Annots` it is the page with `/Annots` inserted. With a resolved indirect `/Annots` the step is exactly the array object's `apply_patch` |
| Annots.PageStageExtends | lib/acro_that/actions/add_field.rb:220-281 | the page step only queues after the existing patches, and keeps numbers fresh |
| Annots.PageStageAbsentLookup | lib/acro_that/actions/add_field.rb:268-280 | after the page step, a page without `/Annots` reads back with `/Annots [w 0 R]` in it |
| Annots.AbsentBodyInserts | lib/acro_that/actions/add_field.rb:269-277 | `/Annots [w 0 R]` is inserted just before the last `>>`, or appended after a space when there is no `>>`; either way the text changes |
| Annots.AbsentBodyIsReverseSub | lib/acro_that/actions/add_field.rb:272-277 | the reverse/sub/reverse idiom of the action is exactly the insertion before the last `>>` |
| Annots.ArrayBodyWithAppends | lib/acro_that/actions/add_field.rb:249-258 | the array object's new text is bracketed and ends with ` w 0 R]`, or is exactly `[w 0 R]`; a blank array `[]` becomes `[w 0 R]`; the token names the widget |
| Annots.IndirectRewriteInserts | lib/acro_that/actions/add_field.rb:266 | an unresolved `/Annots A B R` is replaced in place by `/Annots [w 0 R]`, and the text around it is kept |
| Annots.InlineFallbackInserts | lib/acro_that/actions/add_field.rb:234-242 | the fallback replaces the first single-line `/Annots [...]` in place by `/Annots` and the new array, and keeps the text around it |
| Annots.InlineFallbackSameArray | lib/acro_that/actions/add_field.rb:228-242 | when the first `/Annots [...]` has no newline inside, the fallback's pattern without `m` finds that same array |
| AddFieldAction.DraftQueues | lib/acro_that/actions/add_field.rb:42-56 | the field and the widget are queued, field first, under `N` and `N + 1` with generation 0, where, under `AboveAll`, `N` is above every number in use and the ledger's fresh number is then above `N + 1` |
| AddFieldAction.TransactionQueuesFieldThenWidget | lib/acro_that/actions/add_field.rb:42-62 | after `call`, the ledger holds the old patches, then the field dictionary under `N 0`, then the widget under `N+1 0`, and everything else after them |
| AddFieldAction.TransactionExtendsDraft | lib/acro_that/actions/add_field.rb:58-62 | the AcroForm and page steps only queue after the field and widget, and keep numbers fresh |
| AddFieldAction.TransactionSteps | lib/acro_that/actions/add_field.rb:58-77 | case table of the definition, a proof helper for the lemmas that follow: `call` fails exactly when its AcroForm step raises, and then leaves the ledger as that step left it. Otherwise it ends with the page step for the widget `N + 1`, and with the appearance request when the value is signature image data |
| AddFieldAction.TransactionOutcome | lib/acro_that/actions/add_field.rb:58-77 | `call` returns `true` unless the AcroForm step raises, and always does so without an AcroForm. It asks for a signature appearance iff it returns and the field is a `/Sig` with image data, handing over `N 0 R`, the value and the size. On a raise no appearance is asked for |
| AddFieldAction.TransactionRaisesOnlyForMissingArray | lib/acro_that/actions/add_field.rb:164-171 | `call` fails iff there is an AcroForm whose `/Fields` names an array object with no body |
| AddFieldAction.CounterAllocatorReusesWidgetNumber | lib/acro_that/actions/add_field.rb:185-189 | with a bare counter as the allocator, the widget is queued under `N + 1` and a font the AcroForm step adds is queued under that same `N + 1` |
| AddFieldAction.TransactionFontIsFresh | lib/acro_that/actions/add_field.rb:185-189 | a font the AcroForm step adds is queued right after the field, the widget and any `/Fields` array patch, under a number that, under `AboveAll`, is above the widget's and every original one |
| AddFieldAction.WidgetPointsAtFieldAndPage | lib/acro_that/actions/add_field.rb:117-138 | the widget shows `/Parent N 0 R`, and `/P` for the page exactly when `find_page_by_number` found it; it has `/F` once, and `/V` iff the field writes it |
| AddFieldAction.WidgetShowsParentAndPage | lib/acro_that/actions/add_field.rb:122-123 | the rendered widget has its `/Parent` line, and a `/P` line for a found page |
| AddFieldAction.AddField.constructor | lib/acro_that/actions/add_field.rb:11-16 | `new` stores its arguments and `metadata` defaults to `{}`; nothing is recorded yet |
| AddFieldAction.AddField.CreateFieldDictionary | lib/acro_that/actions/add_field.rb:82-115 | the accumulated text is the field dictionary, whose entries `FieldEntriesFacts` describes |
| AddFieldAction.AddField.CreateWidgetAnnotationWithParent | lib/acro_that/actions/add_field.rb:117-153 | the accumulated text is the widget dictionary, whose entries `WidgetEntriesFacts` describes |
| AddFieldAction.AddField.AddFieldToAcroformWithDefaults | lib/acro_that/actions/add_field.rb:155-213 | the document's ledger becomes the AcroForm step's, and the status says whether it returned early, raised or registered |
| AddFieldAction.AddField.AddWidgetToPage | lib/acro_that/actions/add_field.rb:220-282 | it returns `true` iff the page is found, and the ledger becomes the page step's |
| AddFieldAction.AddField.QueueFieldAndWidget | lib/acro_that/actions/add_field.rb:41-56 | the ledger becomes the draft, with the field and the widget queued, and the returned number is `N` |
| AddFieldAction.AddField.Call | lib/acro_that/actions/add_field.rb:18-78 | the document's ledger, the result and the appearance request are those of `Transaction`; the invariant is kept; the recorded `field_obj_num`, `field_type` and `field_value` are `N`, the normalised type and the value |

## Left out

- Float: the Float branch of `format_pdf_value` (line 293-294) is not modelled, because there is no floating point here; `MetaValue` has no float.
- Other objects: the catch-all `value.to_s` of `format_pdf_value` (line 316) is not modelled, because it applies to Ruby objects of arbitrary classes.
- Builders.FieldEntriesFacts: an Array or Hash given as `/Ff` is interpolated with Ruby's `inspect` (line 89). The model writes it with `format_pdf_value`, and the lemmas state nothing about that text.
- Backslashes: `sub` with a replacement string (line 242) treats `\0`, `\1`, … in the replacement as back-references. The model stands for the plain text, which agrees whenever the array's contents have no backslash.
- AddSignatureAppearance: the signature-appearance action (line 71-73) is left out, because it is a foreign collaborator. `call` returns the request it would make, as an `AppearanceRequest`. There is no rescue around it: a `false` result is ignored, but a raise inside it would leave `call` with that exception, which the model does not capture.
- AddFieldAction.TransactionOutcome: "returns `true` unless the AcroForm step raises" holds only when the signature-appearance action does not raise either (line 71-73).
- Builders.Resolve: the options are modelled as integers for `x`, `y`, `width`, `height` and `page`, and as a string for the value. Float coordinates, which the action writes as Float text in `/Rect` (line 118, for example `[50.5 600 200.5 625]`), are not modelled. Neither are non-String values: a Symbol value passes `.empty?`, is not a String, so `should_set_value` holds and `/V` is written from it (line 94-102).
- Ledger.Document.constructor: a stand-in for `AcroThat::Document.new`. The document starts with an empty ledger and a counter at least every original number; parsing a PDF into the original table is not modelled.
- DictScan and the document: the `DictScan` helpers and the `Document` internals are not part of this model. `encode_pdf_string` is among them. The model gives these collaborators only the behaviour the action relies on.
- Writer and encoding: writing the PDF, xref and trailer generation, listing fields, and character encoding and Unicode are left out. Strings are sequences of characters.
- Page lookup: traversing the `/Pages` tree is not modelled. `find_page_by_number` is indexing a fixed page list.
- Ledger.Document.NextFreshObjectNumber: the allocator behind `next_fresh_object_number` is not part of this model. The freshness lemmas assume `AboveAll` of it, which covers the widget `N + 1` even though `N + 1` is never allocated.
- AddFieldAction.TransactionFontIsFresh: holds only under `AboveAll`. A plain counter started from the original table and advanced only by allocations would give the font the number `N + 1`, the widget's (`CounterAllocatorReusesWidgetNumber`).
- Ledger.Document.Valid: the AcroForm and every page are assumed to have a body in the original table, so the paths where `get_object_body_with_patch` returns `nil` for them are not modelled.
- AddFieldAction.Transaction: an indirect `/Fields` whose array object has no body hands `nil` to `add_ref_to_array`, whose behaviour on `nil` is not shown. The model treats this as the action raising.
- Builders.HashGet: a metadata list with a repeated key takes its first entry, as a Ruby Hash with unique keys would.
- AcroForm.RefOfMatch: the rest of the model reads the two numbers of a reference token as decimal. The action's `Integer(...)` differs on numerals with a leading zero (see Findings).
- AddFieldAction.AddField.Call: the action sets `field_obj_num` before building the bodies. The method records it after queueing them, which no caller can observe.
- Annots.AbsentBody: it is defined as the replacement of the last `>>`. `AddWidgetToPage` computes the reverse/sub/reverse text as the action does, and `AbsentBodyIsReverseSub` shows the two are equal.
- Patterns.FirstInlineArrayFrom: the searches return a match at or after the start, and the model computes the leftmost one. No lemma states that the match is leftmost.
- Patterns.FirstIndirectArrayFrom: no lemma states that its match is leftmost either.
- Regular expressions in general: the non-greedy `.*?\]` is modelled as running to the first `]`. Nested arrays inside `/Annots` are not treated specially, as in the action.

## Findings

| source | as written | input that shows it | evidently intended | confidence | as-written member | corrected member |
|---|---|---|---|---|---|---|
| lib/acro_that/actions/add_field.rb:168 | `Integer(::Regexp.last_match(1))` reads a captured numeral with a leading `0` as octal, and raises for a digit 8 or 9 after it | an AcroForm whose `/Fields` is `010 0 R` makes the action patch object 8 instead of object 10, and `09 0 R` makes it raise | the captured digits read as the decimal object number, as the PDF syntax for an indirect reference means | medium, not executed | AcroForm.FieldsStepAsWrittenMisreads | AcroForm.FieldsShapeOfWrittenRef |
| lib/acro_that/actions/add_field.rb:246 | the same `Integer` reading of the `/Annots` reference | a page whose text is `/Annots 010 0 R` makes the action patch array object 8 instead of object 10, and `/Annots 09 0 R` makes it raise | the captured digits read as the decimal object number | medium, not executed | Annots.AnnotsStepAsWrittenMisreads | Annots.AnnotsShapeOfWrittenRef |
