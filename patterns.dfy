/**
 * The four regular expressions of the AddField action, each replaced by an
 * explicit recogniser and proved to accept exactly the texts the pattern
 * describes:
 *
 *   - `\A(\d+)\s+(\d+)\s+R`           an indirect reference at the start of a token;
 *   - `/Annots\s*\[(.*?)\]` (with and without the `m` flag)  an inline `/Annots` array;
 *   - `/Annots\s+(\d+)\s+(\d+)\s+R`   an indirect `/Annots` reference;
 *   - `^[A-Za-z0-9+/]*={0,2}$`        a line of base64 text.
 *
 * A search returns the leftmost match, as Ruby's `=~`, `match?` and `sub` do.
 */
module Patterns {
  import opened Wrappers
  import opened Text

  /** The end of the maximal run of digits starting at `from`. */
  function DigitRunEnd(s: string, from: nat): (e: nat)
    requires from <= |s|
    decreases |s| - from
    ensures from <= e <= |s|
    ensures forall k :: from <= k < e ==> IsDigit(s[k])
    ensures e == |s| || !IsDigit(s[e])
  {
    if from < |s| && IsDigit(s[from]) then DigitRunEnd(s, from + 1) else from
  }

  /** The end of the maximal run of `\s` characters starting at `from`. */
  function SpaceRunEnd(s: string, from: nat): (e: nat)
    requires from <= |s|
    decreases |s| - from
    ensures from <= e <= |s|
    ensures forall k :: from <= k < e ==> IsSpace(s[k])
    ensures e == |s| || !IsSpace(s[e])
  {
    if from < |s| && IsSpace(s[from]) then SpaceRunEnd(s, from + 1) else from
  }

  /** A run that starts at `from` and stops before a character outside the class is the maximal one. */
  lemma DigitRunUnique(s: string, from: nat, e: nat)
    requires from <= e <= |s|
    requires forall k :: from <= k < e ==> IsDigit(s[k])
    requires e == |s| || !IsDigit(s[e])
    ensures DigitRunEnd(s, from) == e
    decreases e - from
  {
    if from < e { DigitRunUnique(s, from + 1, e); }
  }

  lemma SpaceRunUnique(s: string, from: nat, e: nat)
    requires from <= e <= |s|
    requires forall k :: from <= k < e ==> IsSpace(s[k])
    requires e == |s| || !IsSpace(s[e])
    ensures SpaceRunEnd(s, from) == e
    decreases e - from
  {
    if from < e { SpaceRunUnique(s, from + 1, e); }
  }

  /** The two digit groups of a match of `(\d+)\s+(\d+)\s+R` and the index just after its `R`. */
  datatype RefMatch = RefMatch(num: string, gen: string, end: nat)

  /** `(\d+)\s+(\d+)\s+R` anchored at index `p`. */
  function RefTokenAt(s: string, p: nat): (r: Option<RefMatch>)
    requires p <= |s|
    ensures r.Some? ==> p < r.value.end <= |s| && s[r.value.end - 1] == 'R'
    ensures r.Some? ==> |r.value.num| > 0 && AllDigits(r.value.num)
    ensures r.Some? ==> |r.value.gen| > 0 && AllDigits(r.value.gen)
  {
    var e1 := DigitRunEnd(s, p);
    var e2 := SpaceRunEnd(s, e1);
    var e3 := DigitRunEnd(s, e2);
    var e4 := SpaceRunEnd(s, e3);
    if e1 > p && e2 > e1 && e3 > e2 && e4 > e3 && e4 < |s| && s[e4] == 'R' then
      Some(RefMatch(s[p..e1], s[e2..e3], e4 + 1))
    else None
  }

  /** The text a match of `(\d+)\s+(\d+)\s+R` is made of. */
  predicate RefSyntax(a: string, w1: string, b: string, w2: string) {
    |a| > 0 && AllDigits(a) && |w1| > 0 && AllSpaces(w1) &&
    |b| > 0 && AllDigits(b) && |w2| > 0 && AllSpaces(w2)
  }

  /** Every text of the pattern's shape at `p` is recognised, with the right groups. */
  lemma RefTokenAtComplete(s: string, p: nat, a: string, w1: string, b: string, w2: string)
    requires RefSyntax(a, w1, b, w2)
    requires OccursAt(s, a + w1 + b + w2 + "R", p)
    ensures RefTokenAt(s, p) == Some(RefMatch(a, b, p + |a| + |w1| + |b| + |w2| + 1))
  {
    OccursAtSplit(s, a + w1 + b + w2, "R", p);
    OccursAtSplit(s, a + w1 + b, w2, p);
    OccursAtSplit(s, a + w1, b, p);
    OccursAtSplit(s, a, w1, p);
    RefTokenAtPieces(s, p, a, w1, b, w2);
  }

  lemma RefTokenAtPieces(s: string, p: nat, a: string, w1: string, b: string, w2: string)
    requires RefSyntax(a, w1, b, w2)
    requires OccursAt(s, a, p) && OccursAt(s, w1, p + |a|) && OccursAt(s, b, p + |a| + |w1|)
    requires OccursAt(s, w2, p + |a| + |w1| + |b|) && OccursAt(s, "R", p + |a| + |w1| + |b| + |w2|)
    ensures RefTokenAt(s, p) == Some(RefMatch(a, b, p + |a| + |w1| + |b| + |w2| + 1))
  {
    var e2 := p + |a| + |w1|;
    var e4 := e2 + |b| + |w2|;
    CharsAt(s, "R", e4);
    CharsAt(s, b, e2);
    DigitsThenSpaces(s, p, a, w1);
    DigitsThenSpaces(s, e2, b, w2);
    var e1, e3 := DigitRunEnd(s, p), DigitRunEnd(s, e2);
    assert e1 == p + |a| && SpaceRunEnd(s, e1) == e2;
    assert e3 == e2 + |b| && SpaceRunEnd(s, e3) == e4;
    assert s[p..e1] == a && s[e2..e3] == b;
  }

  /** `\d+\s+` at `p`, followed by a character outside `\s`, is recognised by the two maximal runs. */
  lemma DigitsThenSpaces(s: string, p: nat, a: string, w: string)
    requires |a| > 0 && AllDigits(a) && |w| > 0 && AllSpaces(w)
    requires OccursAt(s, a, p) && OccursAt(s, w, p + |a|)
    requires p + |a| + |w| < |s| && !IsSpace(s[p + |a| + |w|])
    ensures DigitRunEnd(s, p) == p + |a| && SpaceRunEnd(s, p + |a|) == p + |a| + |w|
  {
    RunAt(s, a, p, true);
    RunAt(s, w, p + |a|, false);
    DigitRunUnique(s, p, p + |a|);
    SpaceRunUnique(s, p + |a|, p + |a| + |w|);
  }

  /** The characters of an occurrence of a digit (or space) string are digits (or spaces). */
  lemma RunAt(s: string, x: string, p: int, digits: bool)
    requires OccursAt(s, x, p) && |x| > 0
    requires if digits then AllDigits(x) else AllSpaces(x)
    ensures forall k :: p <= k < p + |x| ==> if digits then IsDigit(s[k]) else IsSpace(s[k])
    ensures if digits then !IsSpace(s[p]) else !IsDigit(s[p])
  {
    assert forall k :: p <= k < p + |x| ==> s[k] == x[k - p];
  }

  /** Every recognised text has the pattern's shape. */
  lemma RefTokenAtSound(s: string, p: nat)
    requires p <= |s|
    requires RefTokenAt(s, p).Some?
    ensures var m := RefTokenAt(s, p).value;
      exists w1, w2 :: RefSyntax(m.num, w1, m.gen, w2) && OccursAt(s, m.num + w1 + m.gen + w2 + "R", p)
  {
    var m := RefTokenAt(s, p).value;
    var e1 := DigitRunEnd(s, p);
    var e2 := SpaceRunEnd(s, e1);
    var e3 := DigitRunEnd(s, e2);
    var e4 := SpaceRunEnd(s, e3);
    var w1, w2 := s[e1..e2], s[e3..e4];
    assert s[p..e4 + 1] == m.num + w1 + m.gen + w2 + "R";
    assert RefSyntax(m.num, w1, m.gen, w2);
  }

  /** A match of `/Annots\s*\[(.*?)\]`: where it starts, the captured text, where it ends. */
  datatype ArrayMatch = ArrayMatch(start: nat, inner: string, end: nat)

  /** The `[` of `/Annots\s*\[` anchored at `i`. */
  function OpenBracketAt(s: string, key: string, i: nat): (q: Option<nat>)
    requires i <= |s|
    ensures q.Some? ==> i + |key| <= q.value < |s| && s[q.value] == '['
  {
    if !OccursAt(s, key, i) then None
    else
      var q := SpaceRunEnd(s, i + |key|);
      if q < |s| && s[q] == '[' then Some(q) else None
  }

  /**
   * `/Annots\s*\[(.*?)\]` anchored at `i`. With the `m` flag (`dotAll`) the
   * lazy `.*?` crosses line breaks; without it, it stops at one.
   */
  function InlineArrayAt(s: string, key: string, i: nat, dotAll: bool): (r: Option<ArrayMatch>)
    requires i <= |s|
    ensures r.Some? ==> r.value.start == i && i < r.value.end <= |s|
  {
    match OpenBracketAt(s, key, i)
    case None => None
    case Some(q) =>
      match IndexOfCharFrom(s, ']', q + 1)
      case None => None
      case Some(e) =>
        if !dotAll && !Lacks(s[q + 1..e], '\n') then None
        else Some(ArrayMatch(i, s[q + 1..e], e + 1))
  }

  /** The text a match of `/Annots\s*\[(.*?)\]` is made of. */
  predicate InlineArraySyntax(w: string, inner: string, dotAll: bool) {
    AllSpaces(w) && Lacks(inner, ']') && (dotAll || Lacks(inner, '\n'))
  }

  lemma OccursAtSplit(s: string, x: string, y: string, p: int)
    requires OccursAt(s, x + y, p)
    ensures OccursAt(s, x, p) && OccursAt(s, y, p + |x|)
  {
    assert s[p..p + |x|] == s[p..p + |x + y|][..|x|];
    assert s[p + |x|..p + |x| + |y|] == s[p..p + |x + y|][|x|..];
  }

  lemma OccursAtJoin(s: string, x: string, y: string, p: int)
    requires OccursAt(s, x, p) && OccursAt(s, y, p + |x|)
    ensures OccursAt(s, x + y, p)
  {
    assert s[p..p + |x + y|] == s[p..p + |x|] + s[p + |x|..p + |x| + |y|];
  }

  /** The characters of an occurrence, one by one. */
  lemma CharsAt(s: string, x: string, p: int)
    requires OccursAt(s, x, p)
    ensures forall k :: 0 <= k < |x| ==> s[p + k] == x[k]
  {
    forall k | 0 <= k < |x| ensures s[p + k] == x[k] {
      assert s[p..p + |x|][k] == s[p + k];
    }
  }

  /** The text before the first `c` has no `c`. */
  lemma LacksBeforeFirst(s: string, c: char, from: nat)
    requires IndexOfCharFrom(s, c, from).Some?
    ensures from <= IndexOfCharFrom(s, c, from).value
    ensures Lacks(s[from..IndexOfCharFrom(s, c, from).value], c)
  {
    var e := IndexOfCharFrom(s, c, from).value;
    forall k | 0 <= k < e - from ensures s[from..e][k] != c {
      assert s[from..e][k] == s[from + k];
    }
  }

  lemma OpenBracketAtComplete(s: string, key: string, i: nat, w: string)
    requires AllSpaces(w)
    requires OccursAt(s, key + w + "[", i)
    ensures OpenBracketAt(s, key, i) == Some(i + |key| + |w|)
  {
    var q := i + |key| + |w|;
    OccursAtSplit(s, key + w, "[", i);
    OccursAtSplit(s, key, w, i);
    CharsAt(s, w, i + |key|);
    CharsAt(s, "[", q);
    SpaceRunUnique(s, i + |key|, q);
  }

  /** The first `]` after the `[` at `q` closes an array whose text has none. */
  lemma ClosingBracketComplete(s: string, q: nat, inner: string)
    requires Lacks(inner, ']')
    requires OccursAt(s, inner + "]", q + 1)
    ensures IndexOfCharFrom(s, ']', q + 1) == Some(q + 1 + |inner|)
  {
    var e := q + 1 + |inner|;
    OccursAtSplit(s, inner, "]", q + 1);
    CharsAt(s, inner, q + 1);
    CharsAt(s, "]", e);
    assert s[e] == ']';
    assert forall j :: q + 1 <= j < e ==> s[j] == inner[j - q - 1];
  }

  /** Every text of the pattern's shape at `i` is recognised, with its capture. */
  lemma InlineArrayAtComplete(s: string, key: string, i: nat, w: string, inner: string, dotAll: bool)
    requires InlineArraySyntax(w, inner, dotAll)
    requires OccursAt(s, key + w + "[" + inner + "]", i)
    ensures InlineArrayAt(s, key, i, dotAll) == Some(ArrayMatch(i, inner, i + |key| + |w| + |inner| + 2))
  {
    var q := i + |key| + |w|;
    var e := q + 1 + |inner|;
    assert OpenBracketAt(s, key, i) == Some(q) && IndexOfCharFrom(s, ']', q + 1) == Some(e) &&
           s[q + 1..e] == inner by {
      OccursAtSplit(s, key + w + "[" + inner, "]", i);
      OccursAtSplit(s, key + w + "[", inner, i);
      OccursAtJoin(s, inner, "]", q + 1);
      OpenBracketAtComplete(s, key, i, w);
      ClosingBracketComplete(s, q, inner);
    }
    InlineArrayAtFound(s, key, i, dotAll, q, e);
  }

  /** Given where the opening and closing brackets are, the match is what lies between them. */
  lemma InlineArrayAtFound(s: string, key: string, i: nat, dotAll: bool, q: nat, e: nat)
    requires i <= |s| && q < e <= |s|
    requires OpenBracketAt(s, key, i) == Some(q) && IndexOfCharFrom(s, ']', q + 1) == Some(e)
    requires dotAll || Lacks(s[q + 1..e], '\n')
    ensures InlineArrayAt(s, key, i, dotAll) == Some(ArrayMatch(i, s[q + 1..e], e + 1))
  {
  }

  /** What a match found at `i` consists of. */
  lemma InlineArrayAtSound(s: string, key: string, i: nat, dotAll: bool)
    requires i <= |s|
    requires InlineArrayAt(s, key, i, dotAll).Some?
    ensures var m, q := InlineArrayAt(s, key, i, dotAll).value, SpaceRunEnd(s, i + |key|);
      InlineArraySyntax(s[i + |key|..q], m.inner, dotAll) &&
      OccursAt(s, key + s[i + |key|..q] + "[" + m.inner + "]", i) && m.end == q + |m.inner| + 2
  {
    var m := InlineArrayAt(s, key, i, dotAll).value;
    var q := OpenBracketAt(s, key, i).value;
    var e := IndexOfCharFrom(s, ']', q + 1).value;
    LacksBeforeFirst(s, ']', q + 1);
    InlinePiecesJoin(s, key, s[i + |key|..q], s[q + 1..e], i);
  }

  /** The pieces of a match, found one after the other, make up the whole match. */
  lemma InlinePiecesJoin(s: string, key: string, w: string, inner: string, i: nat)
    requires OccursAt(s, key, i) && OccursAt(s, w, i + |key|)
    requires i + |key| + |w| < |s| && s[i + |key| + |w|] == '['
    requires OccursAt(s, inner, i + |key| + |w| + 1)
    requires i + |key| + |w| + 1 + |inner| < |s| && s[i + |key| + |w| + 1 + |inner|] == ']'
    ensures OccursAt(s, key + w + "[" + inner + "]", i)
  {
    var q := i + |key| + |w|;
    var e := q + 1 + |inner|;
    assert s[q..q + 1] == "[";
    assert s[e..e + 1] == "]";
    OccursAtJoin(s, key, w, i);
    OccursAtJoin(s, key + w, "[", i);
    OccursAtJoin(s, key + w + "[", inner, i);
    OccursAtJoin(s, key + w + "[" + inner, "]", i);
  }

  /** The leftmost match of `/Annots\s*\[(.*?)\]` at or after `from`. */
  function FirstInlineArrayFrom(s: string, key: string, dotAll: bool, from: nat): (r: Option<ArrayMatch>)
    requires from <= |s|
    decreases |s| - from
    ensures r.Some? ==> from <= r.value.start <= |s| && InlineArrayAt(s, key, r.value.start, dotAll) == r
  {
    var here := InlineArrayAt(s, key, from, dotAll);
    if here.Some? then here
    else if from == |s| then None
    else FirstInlineArrayFrom(s, key, dotAll, from + 1)
  }

  /** A text without `[` has no inline-array match anywhere. */
  lemma {:induction false} FirstInlineArrayFromWithoutBracket(s: string, key: string, dotAll: bool, from: nat)
    requires from <= |s| && Lacks(s, '[')
    ensures FirstInlineArrayFrom(s, key, dotAll, from).None?
    decreases |s| - from
  {
    if from < |s| {
      FirstInlineArrayFromWithoutBracket(s, key, dotAll, from + 1);
    }
  }

  /** `s =~ %r{/Annots\s*\[(.*?)\]}m` (dotAll) or the same without the `m` flag. */
  function FirstInlineArray(s: string, dotAll: bool): Option<ArrayMatch> {
    FirstInlineArrayFrom(s, "/Annots", dotAll, 0)
  }

  /** A match of `/Annots\s+(\d+)\s+(\d+)\s+R`: where it starts and its reference part. */
  datatype IndirectMatch = IndirectMatch(start: nat, ref: RefMatch)

  /** `/Annots\s+(\d+)\s+(\d+)\s+R` anchored at `i`. */
  function IndirectArrayAt(s: string, key: string, i: nat): (r: Option<IndirectMatch>)
    requires i <= |s|
    ensures r.Some? ==> r.value.start == i && i + |key| < r.value.ref.end <= |s|
  {
    if !OccursAt(s, key, i) then None
    else
      var q := SpaceRunEnd(s, i + |key|);
      if q == i + |key| then None
      else match RefTokenAt(s, q)
        case None => None
        case Some(m) => Some(IndirectMatch(i, m))
  }

  /** The leftmost match of `/Annots\s+(\d+)\s+(\d+)\s+R` at or after `from`. */
  function FirstIndirectArrayFrom(s: string, key: string, from: nat): (r: Option<IndirectMatch>)
    requires from <= |s|
    decreases |s| - from
    ensures r.Some? ==> from <= r.value.start <= |s| && IndirectArrayAt(s, key, r.value.start) == r
  {
    var here := IndirectArrayAt(s, key, from);
    if here.Some? then here
    else if from == |s| then None
    else FirstIndirectArrayFrom(s, key, from + 1)
  }

  /** `s =~ %r{/Annots\s+(\d+)\s+(\d+)\s+R}`. */
  function FirstIndirectArray(s: string): Option<IndirectMatch> {
    FirstIndirectArrayFrom(s, "/Annots", 0)
  }

  /**
   * Every text of the shape `key \s+ \d+ \s+ \d+ \s+ R` at `i` is recognised,
   * with the right groups: `key`, then the spaces `w`, then the reference text.
   */
  lemma IndirectArrayAtComplete(s: string, key: string, i: nat, w: string, a: string, w1: string, b: string, w2: string)
    requires |w| > 0 && AllSpaces(w) && RefSyntax(a, w1, b, w2)
    requires OccursAt(s, key, i) && OccursAt(s, w, i + |key|)
    requires OccursAt(s, a + w1 + b + w2 + "R", i + |key| + |w|)
    ensures IndirectArrayAt(s, key, i) ==
      Some(IndirectMatch(i, RefMatch(a, b, i + |key| + |w| + |a| + |w1| + |b| + |w2| + 1)))
  {
    var q := i + |key| + |w|;
    var m := RefMatch(a, b, i + |key| + |w| + |a| + |w1| + |b| + |w2| + 1);
    assert q < |s| && IsDigit(s[q]) && RefTokenAt(s, q) == Some(m) by {
      RefTokenAtComplete(s, q, a, w1, b, w2);
      CharsAt(s, a + w1 + b + w2 + "R", q);
      assert (a + w1 + b + w2 + "R")[0] == a[0];
    }
    IndirectArrayAtPieces(s, key, i, w, m);
  }

  /** `key`, then a run of spaces ending at a digit where a reference token is recognised. */
  lemma IndirectArrayAtPieces(s: string, key: string, i: nat, w: string, m: RefMatch)
    requires |w| > 0 && AllSpaces(w) && OccursAt(s, key, i) && OccursAt(s, w, i + |key|)
    requires i + |key| + |w| < |s| && IsDigit(s[i + |key| + |w|])
    requires RefTokenAt(s, i + |key| + |w|) == Some(m)
    ensures IndirectArrayAt(s, key, i) == Some(IndirectMatch(i, m))
  {
    var q := i + |key| + |w|;
    RunAt(s, w, i + |key|, false);
    SpaceRunUnique(s, i + |key|, q);
    assert SpaceRunEnd(s, i + |key|) == q && q != i + |key|;
  }

  /**
   * Every recognised text is `key`, a non-empty run of spaces and a text the
   * reference recogniser accepts (whose shape `RefTokenAtSound` gives).
   */
  lemma IndirectArrayAtSound(s: string, key: string, i: nat)
    requires i <= |s|
    requires IndirectArrayAt(s, key, i).Some?
    ensures var m, q := IndirectArrayAt(s, key, i).value, SpaceRunEnd(s, i + |key|);
      var w := s[i + |key|..q];
      |w| > 0 && AllSpaces(w) && OccursAt(s, key + w, i) && RefTokenAt(s, q) == Some(m.ref)
  {
    var q := SpaceRunEnd(s, i + |key|);
    OccursAtJoin(s, key, s[i + |key|..q], i);
  }

  /** The character class `[A-Za-z0-9+/]`. */
  predicate IsBase64Char(c: char) {
    ('A' <= c <= 'Z') || ('a' <= c <= 'z') || ('0' <= c <= '9') || c == '+' || c == '/'
  }

  function Base64RunEnd(s: string, from: nat): (e: nat)
    requires from <= |s|
    decreases |s| - from
    ensures from <= e <= |s|
  {
    if from < |s| && IsBase64Char(s[from]) then Base64RunEnd(s, from + 1) else from
  }

  /** The run from `from` is the longest stretch of base64 characters there. */
  lemma {:induction false} Base64RunEndFacts(s: string, from: nat)
    requires from <= |s|
    decreases |s| - from
    ensures var e := Base64RunEnd(s, from);
      (forall k :: from <= k < e ==> IsBase64Char(s[k])) && (e == |s| || !IsBase64Char(s[e]))
  {
    if from < |s| && IsBase64Char(s[from]) {
      Base64RunEndFacts(s, from + 1);
    }
  }

  /** A whole line matches `[A-Za-z0-9+/]*={0,2}`. */
  predicate Base64Line(line: string) {
    var k := Base64RunEnd(line, 0);
    line[k..] == "" || line[k..] == "=" || line[k..] == "=="
  }

  lemma Base64LineIff(line: string)
    ensures Base64Line(line) <==>
      exists k :: 0 <= k <= |line| && (forall j :: 0 <= j < k ==> IsBase64Char(line[j])) &&
        (line[k..] == "" || line[k..] == "=" || line[k..] == "==")
  {
    var k0 := Base64RunEnd(line, 0);
    Base64RunEndFacts(line, 0);
    if !Base64Line(line) {
      forall k | 0 <= k <= |line| && (forall j :: 0 <= j < k ==> IsBase64Char(line[j]))
        ensures !(line[k..] == "" || line[k..] == "=" || line[k..] == "==")
      {
        if k < k0 {
          assert IsBase64Char(line[k]);
        }
      }
    }
  }

  /** Ruby's `^` in the middle of a string: at its start, or just after a line feed that is not the last character. */
  predicate IsLineStart(s: string, p: int) {
    p == 0 || (0 < p < |s| && s[p - 1] == '\n')
  }

  /** The end of the line that starts at `p`: the next line feed, or the end of `s`. */
  function LineEnd(s: string, p: nat): nat
    requires p <= |s|
  {
    match IndexOfCharFrom(s, '\n', p)
    case Some(e) => e
    case None => |s|
  }

  /** The line that starts at `p`, without its line feed. */
  function LineAt(s: string, p: nat): string
    requires p <= |s|
  {
    s[p..LineEnd(s, p)]
  }

  /** `s.match?(%r{^[A-Za-z0-9+/]*={0,2}$})` searched from line start `p` on. */
  function SomeBase64LineFrom(s: string, p: nat): bool
    requires p <= |s|
    decreases |s| - p
  {
    Base64Line(LineAt(s, p)) ||
    (var e := LineEnd(s, p); e + 1 < |s| && SomeBase64LineFrom(s, e + 1))
  }

  /** `s.match?(%r{^[A-Za-z0-9+/]*={0,2}$})`: SOME line of `s` is base64 text. */
  predicate SomeBase64Line(s: string) { SomeBase64LineFrom(s, 0) }

  /** The line starts at or after `p` are `p` itself and those after the end of its line. */
  lemma {:induction false} SomeBase64LineFromIff(s: string, p: nat)
    requires p <= |s| && IsLineStart(s, p)
    ensures SomeBase64LineFrom(s, p) <==>
      exists q :: p <= q <= |s| && IsLineStart(s, q) && Base64Line(LineAt(s, q))
    decreases |s| - p
  {
    var e := LineEnd(s, p);
    if e + 1 < |s| {
      SomeBase64LineFromIff(s, e + 1);
    }
    forall q | p < q <= |s| && IsLineStart(s, q) ensures e < q && e + 1 < |s| {
      NoLineStartWithin(s, p, q);
    }
  }

  /** No line starts strictly inside the line that starts at `p`, nor after it when it is the last. */
  lemma NoLineStartWithin(s: string, p: nat, q: int)
    requires p <= |s| && p < q <= |s| && IsLineStart(s, q)
    ensures LineEnd(s, p) < q && LineEnd(s, p) + 1 < |s|
  {
    assert s[q - 1] == '\n';
  }

  /** Ruby's `s.match?(%r{^[A-Za-z0-9+/]*={0,2}$})` is true exactly when some line of `s` is base64 text. */
  lemma SomeBase64LineIff(s: string)
    ensures SomeBase64Line(s) <==> exists q :: IsLineStart(s, q) && Base64Line(LineAt(s, q))
  {
    SomeBase64LineFromIff(s, 0);
  }

  /**
   * The image-data test of the action: a data URI, or more than 50 characters
   * with some line matching the base64 pattern.
   */
  predicate LooksLikeImageData(v: string) {
    StartsWith(v, "data:image/") || (|v| > 50 && SomeBase64Line(v))
  }
}
