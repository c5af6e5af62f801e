/**
 * String operations of Ruby's core library that the AddField action uses on
 * PDF object bodies: `include?`, `start_with?`, `end_with?`, `sub` with a
 * string pattern, `chomp(suffix)`, `strip` and `reverse`.
 */
module Text {
  import opened Wrappers

  /** Ruby's `\d`. */
  predicate IsDigit(c: char) { '0' <= c <= '9' }

  /** Ruby's `\s`: space, tab, line feed, vertical tab, form feed, carriage return. */
  predicate IsSpace(c: char) {
    c == ' ' || c == '\t' || c == '\n' || c == '\U{B}' || c == '\U{C}' || c == '\r'
  }

  /** What `String#strip` removes: the `\s` characters and NUL. */
  predicate IsStripChar(c: char) { IsSpace(c) || c == '\0' }

  predicate AllDigits(s: string) { forall i :: 0 <= i < |s| ==> IsDigit(s[i]) }

  predicate AllSpaces(s: string) { forall i :: 0 <= i < |s| ==> IsSpace(s[i]) }

  /** `t` occurs in `s` starting at index `i`. */
  predicate OccursAt(s: string, t: string, i: int) {
    0 <= i && i + |t| <= |s| && s[i..i + |t|] == t
  }

  predicate StartsWith(s: string, p: string) { |p| <= |s| && s[..|p|] == p }

  predicate EndsWith(s: string, p: string) { |p| <= |s| && s[|s| - |p|..] == p }

  /** The first occurrence of `t` in `s` at or after `from`. */
  function IndexOfFrom(s: string, t: string, from: nat): (r: Option<nat>)
    decreases |s| - from
    ensures r.Some? ==> from <= r.value && OccursAt(s, t, r.value)
  {
    if from + |t| > |s| then None
    else if s[from..from + |t|] == t then Some(from)
    else IndexOfFrom(s, t, from + 1)
  }

  /** An occurrence at `j` puts the first occurrence from `from` at or before `j`. */
  lemma {:induction false} IndexOfFromFirst(s: string, t: string, from: nat, j: int)
    requires from <= j && OccursAt(s, t, j)
    decreases |s| - from
    ensures IndexOfFrom(s, t, from).Some? && IndexOfFrom(s, t, from).value <= j
  {
    if from < j && s[from..from + |t|] != t {
      IndexOfFromFirst(s, t, from + 1, j);
    }
  }

  /** The first index at or after `from` holding the character `c`. */
  function IndexOfCharFrom(s: string, c: char, from: nat): (r: Option<nat>)
    decreases |s| - from
    ensures r.Some? ==> from <= r.value < |s| && s[r.value] == c
    ensures r.Some? ==> forall j :: from <= j < r.value ==> s[j] != c
    ensures r.None? ==> forall j :: from <= j < |s| ==> s[j] != c
  {
    if from >= |s| then None
    else if s[from] == c then Some(from)
    else IndexOfCharFrom(s, c, from + 1)
  }

  /** `s` has no character `c`. */
  predicate Lacks(s: string, c: char) { forall k :: 0 <= k < |s| ==> s[k] != c }

  /** Ruby's `s.index(t)`: the leftmost occurrence. */
  function IndexOf(s: string, t: string): Option<nat> { IndexOfFrom(s, t, 0) }

  /** Ruby's `s.include?(t)`. */
  predicate Contains(s: string, t: string) { IndexOf(s, t).Some? }

  lemma ContainsIff(s: string, t: string)
    ensures Contains(s, t) <==> exists j :: OccursAt(s, t, j)
  {
    if !Contains(s, t) {
      forall j ensures !OccursAt(s, t, j) {
        if OccursAt(s, t, j) {
          IndexOfFromFirst(s, t, 0, j);
        }
      }
    }
  }

  /** A witnessed occurrence makes `include?` true. */
  lemma OccursAtContains(s: string, t: string, j: int)
    requires OccursAt(s, t, j)
    ensures Contains(s, t)
  {
    ContainsIff(s, t);
  }

  /** The last occurrence of `t` in `s` starting at or before `hi`. */
  function LastIndexFrom(s: string, t: string, hi: int): (r: Option<nat>)
    requires hi <= |s| - |t|
    decreases hi + 1
    ensures r.Some? ==> r.value <= hi && OccursAt(s, t, r.value)
  {
    if hi < 0 then None
    else if s[hi..hi + |t|] == t then Some(hi)
    else LastIndexFrom(s, t, hi - 1)
  }

  /** An occurrence at `j` puts the last occurrence up to `hi` at or after `j`. */
  lemma {:induction false} LastIndexFromLast(s: string, t: string, hi: int, j: int)
    requires hi <= |s| - |t| && j <= hi && OccursAt(s, t, j)
    decreases hi + 1
    ensures LastIndexFrom(s, t, hi).Some? && LastIndexFrom(s, t, hi).value >= j
  {
    if j < hi && s[hi..hi + |t|] != t {
      LastIndexFromLast(s, t, hi - 1, j);
    }
  }

  /** Ruby's `s.rindex(t)`: the rightmost occurrence. */
  function LastIndexOf(s: string, t: string): (r: Option<nat>)
    ensures r.Some? ==> OccursAt(s, t, r.value)
  {
    LastIndexFrom(s, t, |s| - |t|)
  }

  /** An occurrence at `j` puts the last occurrence at or after `j`. */
  lemma LastIndexOfLast(s: string, t: string, j: int)
    requires OccursAt(s, t, j)
    ensures LastIndexOf(s, t).Some? && LastIndexOf(s, t).value >= j
  {
    LastIndexFromLast(s, t, |s| - |t|, j);
  }

  /** Ruby's `s.sub(t) { u }` for a string pattern `t`: the first occurrence is replaced. */
  function ReplaceFirst(s: string, t: string, u: string): string {
    match IndexOf(s, t)
    case Some(i) => s[..i] + u + s[i + |t|..]
    case None => s
  }

  /** The last occurrence of `t` in `s` replaced by `u`. */
  function ReplaceLast(s: string, t: string, u: string): string {
    match LastIndexOf(s, t)
    case Some(i) => s[..i] + u + s[i + |t|..]
    case None => s
  }

  /** The replacement text is part of the result whenever the pattern occurs. */
  lemma ReplaceFirstInserts(s: string, t: string, u: string)
    requires Contains(s, t)
    ensures Contains(ReplaceFirst(s, t, u), u)
  {
    var i := IndexOf(s, t).value;
    var r := ReplaceFirst(s, t, u);
    assert r[i..i + |u|] == u;
    OccursAtContains(r, u, i);
  }

  /** Ruby's `s.reverse`. */
  function Reverse(s: string): (r: string)
    ensures |r| == |s|
    ensures forall i :: 0 <= i < |s| ==> r[i] == s[|s| - 1 - i]
  {
    seq(|s|, i requires 0 <= i < |s| => s[|s| - 1 - i])
  }

  lemma ReverseSlice(s: string, i: int, j: int)
    requires 0 <= i <= j <= |s|
    ensures Reverse(s)[|s| - j..|s| - i] == Reverse(s[i..j])
  {
    var a, b := Reverse(s)[|s| - j..|s| - i], Reverse(s[i..j]);
    forall k | 0 <= k < |a| ensures a[k] == b[k] {
      assert a[k] == Reverse(s)[|s| - j + k];
    }
  }

  lemma ReverseReverse(s: string)
    ensures Reverse(Reverse(s)) == s
  {
  }

  lemma ReverseConcat(a: string, b: string)
    ensures Reverse(a + b) == Reverse(b) + Reverse(a)
  {
    var r := Reverse(a + b);
    var q := Reverse(b) + Reverse(a);
    assert |r| == |q|;
    forall i | 0 <= i < |r| ensures r[i] == q[i] {
      if i < |b| {
        assert r[i] == (a + b)[|a| + |b| - 1 - i];
      } else {
        assert r[i] == (a + b)[|a| + |b| - 1 - i];
      }
    }
  }

  /** An occurrence of `t` at `i` in `s` is an occurrence of the reversed `t` in the reversed `s`. */
  lemma OccursAtReverse(s: string, t: string, i: int)
    ensures OccursAt(s, t, i) <==> OccursAt(Reverse(s), Reverse(t), |s| - |t| - i)
  {
    if 0 <= i && i + |t| <= |s| {
      var a := s[i..i + |t|];
      ReverseSlice(s, i, i + |t|);
      assert Reverse(s)[|s| - |t| - i..|s| - i] == Reverse(a);
      if Reverse(a) == Reverse(t) {
        ReverseReverse(a);
        ReverseReverse(t);
      }
    }
  }

  /**
   * The idiom `s.reverse.sub(t.reverse, u.reverse).reverse` replaces the LAST
   * occurrence of `t` in `s` by `u`.
   */
  lemma {:induction false} ReverseSubIsReplaceLast(s: string, t: string, u: string)
    ensures Reverse(ReplaceFirst(Reverse(s), Reverse(t), Reverse(u))) == ReplaceLast(s, t, u)
  {
    var rs, rt := Reverse(s), Reverse(t);
    match IndexOf(rs, rt)
    case None =>
      ReverseReverse(s);
      assert ReplaceFirst(rs, rt, Reverse(u)) == rs;
      match LastIndexOf(s, t) {
        case None =>
          assert ReplaceLast(s, t, u) == s;
        case Some(i) =>
          OccursAtReverse(s, t, i);
          IndexOfFromFirst(rs, rt, 0, |s| - |t| - i);
          assert false;
      }
    case Some(k) =>
      var i := |s| - |t| - k;
      OccursAtReverse(s, t, i);
      LastIndexOfLast(s, t, i);
      var i' := LastIndexOf(s, t).value;
      if i' > i {
        OccursAtReverse(s, t, i');
        IndexOfFromFirst(rs, rt, 0, |s| - |t| - i');
        assert false;
      }
      assert |rt| == |t|;
      assert ReplaceFirst(rs, rt, Reverse(u)) == rs[..k] + Reverse(u) + rs[k + |t|..];
      assert ReplaceLast(s, t, u) == s[..i] + u + s[i + |t|..];
      ReplaceAtReverse(s, t, u, i);
  }

  /** Replacing the reversed occurrence in the reversed text, then reversing back, replaces the occurrence at `i`. */
  lemma ReplaceAtReverse(s: string, t: string, u: string, i: int)
    requires 0 <= i && i + |t| <= |s|
    ensures var rs, k := Reverse(s), |s| - |t| - i;
      Reverse(rs[..k] + Reverse(u) + rs[k + |t|..]) == s[..i] + u + s[i + |t|..]
  {
    var rs, ru, k := Reverse(s), Reverse(u), |s| - |t| - i;
    var a, b := rs[..k], rs[k + |t|..];
    var l := a + ru + b;
    var r, want := Reverse(l), s[..i] + u + s[i + |t|..];
    assert |r| == |want|;
    forall x | 0 <= x < |r| ensures r[x] == want[x] {
      var j := |l| - 1 - x;
      assert r[x] == l[j];
      if x < i {
        assert l[j] == b[j - k - |u|] == rs[|s| - 1 - x];
      } else if x < i + |u| {
        assert l[j] == ru[j - k] == u[x - i];
      } else {
        assert l[j] == a[j] == s[x - |u| + |t|];
      }
    }
  }



  /** Ruby's `s.chomp(p)` for a non-empty `p`: one trailing `p` removed. */
  function Chomp(s: string, p: string): (r: string)
    ensures EndsWith(s, p) ==> r + p == s
    ensures !EndsWith(s, p) ==> r == s
  {
    if EndsWith(s, p) then s[..|s| - |p|] else s
  }

  function TrimStart(s: string): string {
    if s != [] && IsStripChar(s[0]) then TrimStart(s[1..]) else s
  }

  function TrimEnd(s: string): string {
    if s != [] && IsStripChar(s[|s| - 1]) then TrimEnd(s[..|s| - 1]) else s
  }

  /** `lstrip` drops a run of blanks from the front and stops at a non-blank. */
  lemma {:induction false} TrimStartFacts(s: string)
    ensures var r := TrimStart(s);
      |r| <= |s| && r == s[|s| - |r|..] && (r == [] || !IsStripChar(r[0])) &&
      forall i :: 0 <= i < |s| - |r| ==> IsStripChar(s[i])
  {
    if s != [] && IsStripChar(s[0]) {
      var t := s[1..];
      TrimStartFacts(t);
      var r := TrimStart(t);
      assert t[|t| - |r|..] == s[|s| - |r|..];
      forall i | 1 <= i < |s| - |r|
        ensures IsStripChar(s[i])
      {
        assert s[i] == t[i - 1];
      }
    }
  }

  /** `rstrip` drops a run of blanks from the back and stops at a non-blank. */
  lemma {:induction false} TrimEndFacts(s: string)
    ensures var r := TrimEnd(s);
      |r| <= |s| && r == s[..|r|] && (r == [] || !IsStripChar(r[|r| - 1])) &&
      forall i :: |r| <= i < |s| ==> IsStripChar(s[i])
  {
    if s != [] && IsStripChar(s[|s| - 1]) {
      var t := s[..|s| - 1];
      TrimEndFacts(t);
      var r := TrimEnd(t);
      assert t[..|r|] == s[..|r|];
      forall i | |r| <= i < |s| - 1
        ensures IsStripChar(s[i])
      {
        assert s[i] == t[i];
      }
    }
  }

  /** Ruby's `s.strip`. */
  function Strip(s: string): string { TrimEnd(TrimStart(s)) }

  lemma StripEmptyIffBlank(s: string)
    ensures Strip(s) == [] <==> forall i :: 0 <= i < |s| ==> IsStripChar(s[i])
  {
    var a := TrimStart(s);
    TrimStartFacts(s);
    TrimEndFacts(a);
    if a != [] {
      assert !IsStripChar(a[0]);
      assert s[|s| - |a|] == a[0];
    }
  }

  /** Ruby's `items.join(sep)`. */
  function Join(items: seq<string>, sep: string): string {
    if items == [] then ""
    else if |items| == 1 then items[0]
    else items[0] + sep + Join(items[1..], sep)
  }

  /** Ruby's `items.join("")`. */
  function Concat(items: seq<string>): string {
    if items == [] then "" else items[0] + Concat(items[1..])
  }

  lemma ConcatAppend(items: seq<string>, x: string)
    ensures Concat(items + [x]) == Concat(items) + x
  {
    if items != [] {
      assert (items + [x])[1..] == items[1..] + [x];
      ConcatAppend(items[1..], x);
    }
  }

  /** The pieces of `s` between the characters `c`: Ruby's `s.split(c, -1)`. */
  function Split(s: string, c: char): (r: seq<string>)
    ensures |r| > 0
    decreases |s|
  {
    match IndexOfCharFrom(s, c, 0)
    case None => [s]
    case Some(i) => [s[..i]] + Split(s[i + 1..], c)
  }

  /** The first `c` of `a + [c] + b` is the one after `a` when `a` has none. */
  lemma IndexOfCharAfter(a: string, c: char, b: string)
    requires Lacks(a, c)
    ensures IndexOfCharFrom(a + [c] + b, c, 0) == Some(|a|)
  {
    var s := a + [c] + b;
    assert s[|a|] == c;
    assert forall j :: 0 <= j < |a| ==> s[j] == a[j];
  }

  lemma IndexOfCharNone(a: string, c: char)
    requires Lacks(a, c)
    ensures IndexOfCharFrom(a, c, 0) == None
  {
  }

  /** Splitting a join on a separator that no item contains gives the items back. */
  lemma {:induction false} SplitJoin(items: seq<string>, c: char)
    requires |items| > 0
    requires forall i :: 0 <= i < |items| ==> Lacks(items[i], c)
    ensures Split(Join(items, [c]), c) == items
  {
    if |items| == 1 {
      IndexOfCharNone(items[0], c);
    } else {
      var rest := Join(items[1..], [c]);
      IndexOfCharAfter(items[0], c, rest);
      var s := items[0] + [c] + rest;
      assert s[..|items[0]|] == items[0];
      assert s[|items[0]| + 1..] == rest;
      SplitJoin(items[1..], c);
    }
  }

  /** A join of non-empty items is non-empty. */
  lemma JoinNonEmpty(items: seq<string>, sep: string)
    requires |items| > 0 && |items[0]| > 0
    ensures |Join(items, sep)| > 0
  {
  }
}
