/**
 * The document the AddField action edits: the original object table, the
 * patch ledger that new and changed objects are queued on, and the counter
 * behind fresh object numbers. `Store` is the ledger as a value, `Document`
 * the object that owns it and whose methods the action calls.
 */
module Ledger {
  import opened Wrappers

  /** An indirect reference `num gen R`. */
  datatype Ref = Ref(num: int, gen: int)

  /** One queued object: `{ ref: [num, gen], body: "..." }`. */
  datatype Patch = Patch(ref: Ref, body: string)

  /** The index of the last patch queued for `r`. */
  function LastPatchFor(patches: seq<Patch>, r: Ref): (k: Option<nat>)
    ensures k.Some? ==> k.value < |patches| && patches[k.value].ref == r
    ensures k.Some? ==> forall j :: k.value < j < |patches| ==> patches[j].ref != r
    ensures k.None? ==> forall i :: 0 <= i < |patches| ==> patches[i].ref != r
  {
    if patches == [] then None
    else if patches[|patches| - 1].ref == r then Some(|patches| - 1)
    else LastPatchFor(patches[..|patches| - 1], r)
  }

  /**
   * The body of `r`: the body of the last patch queued for `r`, or else its
   * original body, or else nothing.
   */
  function LookupIn(patches: seq<Patch>, objects: map<Ref, string>, r: Ref): Option<string> {
    match LastPatchFor(patches, r)
    case Some(k) => Some(patches[k].body)
    case None => if r in objects then Some(objects[r]) else None
  }

  /** The largest object number among `floor` and the queued refs. */
  function MaxNum(patches: seq<Patch>, floor: int): (m: int)
    ensures m >= floor
    ensures forall i :: 0 <= i < |patches| ==> patches[i].ref.num <= m
    ensures m == floor || exists i :: 0 <= i < |patches| && patches[i].ref.num == m
  {
    if patches == [] then floor
    else
      var m := MaxNum(patches[..|patches| - 1], floor);
      var last := patches[|patches| - 1].ref.num;
      if last > m then last else m
  }

  /**
   * What the action needs of `next_fresh_object_number`, whose code is not part
   * of this model: the number it returns exceeds the counter and every queued
   * object number. The widget's `N + 1` is queued without an allocation, so a
   * counter alone does not meet this.
   */
  ghost predicate AboveAll(allocator: (seq<Patch>, int) -> int) {
    forall ps, l {:trigger allocator(ps, l)} :: MaxNum(ps, l) < allocator(ps, l)
  }

  /** `next_fresh_object_number` read as a bare counter: one more than the last number it handed out. */
  function CounterAllocator(ps: seq<Patch>, l: int): (n: int)
    ensures n > l
  {
    l + 1
  }

  /** A bare counter is not `AboveAll`: with `l + 1` queued at counter `l`, it hands out `l + 1` again. */
  lemma CounterAllocatorNotAboveAll(l: int)
    ensures var ps := [Patch(Ref(l + 1, 0), "")]; MaxNum(ps, l) == CounterAllocator(ps, l)
    ensures !AboveAll(CounterAllocator)
  {
    var ps := [Patch(Ref(l + 1, 0), "")];
    assert ps[..0] == [];
    assert MaxNum(ps, l) == l + 1;
  }

  /**
   * The ledger: the original table, the queued patches, the allocation counter
   * and the allocator `next_fresh_object_number` consults.
   */
  datatype Store = Store(objects: map<Ref, string>, patches: seq<Patch>, last: int, allocator: (seq<Patch>, int) -> int) {

    /** `get_object_body_with_patch(r)`. */
    function Lookup(r: Ref): Option<string> { LookupIn(patches, objects, r) }

    /** `patches << { ref: r, body: body }`. */
    function Push(r: Ref, body: string): Store { this.(patches := patches + [Patch(r, body)]) }

    /** `apply_patch(r, newBody, oldBody)`: queues `newBody` unless it equals `oldBody`. */
    function ApplyPatch(r: Ref, newBody: string, oldBody: string): Store {
      if newBody == oldBody then this else Push(r, newBody)
    }

    /** The number `next_fresh_object_number` returns. */
    function Fresh(): int {
      allocator(patches, last)
    }

    /** `next_fresh_object_number`: the fresh number, with the counter advanced to it. */
    function Allocate(): (r: (Store, int))
      ensures r.1 == Fresh() && r.0 == this.(last := Fresh())
    {
      (this.(last := Fresh()), Fresh())
    }

    /** Every original object number is at most the counter. */
    predicate Numbered() { forall r :: r in objects ==> r.num <= last }
  }

  /** A queued body is what a later lookup of its ref returns. */
  lemma LookupPushSame(st: Store, r: Ref, body: string)
    ensures st.Push(r, body).Lookup(r) == Some(body)
  {
  }

  /** Queuing a body for `r` changes no other ref's lookup. */
  lemma LookupPushOther(st: Store, r: Ref, body: string, r': Ref)
    requires r' != r
    ensures st.Push(r, body).Lookup(r') == st.Lookup(r')
  {
    var ps := st.Push(r, body).patches;
    assert ps[..|ps| - 1] == st.patches;
  }

  /** With no patch for `r`, the lookup is the original body. */
  lemma LookupOriginal(st: Store, r: Ref)
    requires r in st.objects
    requires forall i :: 0 <= i < |st.patches| ==> st.patches[i].ref != r
    ensures st.Lookup(r) == Some(st.objects[r])
  {
  }

  /** An object of the original table always has a body, patched or not. */
  lemma LookupOfOriginal(st: Store, r: Ref)
    requires r in st.objects
    ensures st.Lookup(r).Some?
  {
  }

  /** `apply_patch` with an unchanged body leaves the ledger alone; otherwise it queues the new body. */
  lemma ApplyPatchEffect(st: Store, r: Ref, newBody: string, oldBody: string)
    ensures newBody == oldBody ==> st.ApplyPatch(r, newBody, oldBody) == st
    ensures newBody != oldBody ==> st.ApplyPatch(r, newBody, oldBody).patches == st.patches + [Patch(r, newBody)]
    ensures st.ApplyPatch(r, newBody, oldBody).Lookup(r) == if newBody == oldBody then st.Lookup(r) else Some(newBody)
  {
  }

  /** A fresh number differs from every original and every queued object number. */
  lemma FreshIsFresh(st: Store)
    requires st.Numbered() && AboveAll(st.allocator)
    ensures forall r :: r in st.objects ==> r.num < st.Fresh()
    ensures forall i :: 0 <= i < |st.patches| ==> st.patches[i].ref.num != st.Fresh()
  {
  }

  /** After an allocation the allocated number is the counter, so the next one is larger. */
  lemma AllocateAdvances(st: Store)
    requires st.Numbered() && AboveAll(st.allocator)
    ensures st.Allocate().0.Numbered()
    ensures st.Allocate().0.Fresh() > st.Fresh()
  {
  }

  /** `b` is `a` with possibly more patches queued after the ones `a` has. */
  predicate Extends(a: Store, b: Store) {
    b.objects == a.objects && |a.patches| <= |b.patches| && b.patches[..|a.patches|] == a.patches
  }

  /** `apply_patch` queues at most the one new body, after the patches there are. */
  lemma ApplyPatchExtends(st: Store, r: Ref, newBody: string, oldBody: string)
    ensures var s := st.ApplyPatch(r, newBody, oldBody);
      Extends(st, s) && |s.patches| == |st.patches| + (if newBody != oldBody then 1 else 0)
  {
    var s := st.ApplyPatch(r, newBody, oldBody);
    if newBody != oldBody {
      assert s.patches[..|st.patches|] == st.patches;
    }
  }

  /** Queuing after queuing is queuing. */
  lemma ExtendsTrans(a: Store, b: Store, c: Store)
    requires Extends(a, b) && Extends(b, c)
    ensures Extends(a, c)
  {
    assert c.patches[..|a.patches|] == c.patches[..|b.patches|][..|a.patches|];
  }

  /** A longer ledger keeps every patch of a shorter one it extends in place. */
  lemma ExtendsKeeps(a: Store, b: Store, k: nat)
    requires Extends(a, b) && k <= |a.patches|
    ensures b.patches[..k] == a.patches[..k]
    ensures forall i :: 0 <= i < k ==> b.patches[i] == a.patches[i]
  {
    assert b.patches[..k] == b.patches[..|a.patches|][..k];
  }

  /** A ledger extending one that queued `p` then `q` after `st`'s patches holds them, in that order, right after. */
  lemma ExtendsQueued(st: Store, d: Store, t: Store, p: Patch, q: Patch)
    requires d.patches == st.patches + [p, q] && d.objects == st.objects
    requires Extends(d, t)
    ensures var k := |st.patches|;
      t.objects == st.objects && |t.patches| >= k + 2 && t.patches[..k] == st.patches &&
      t.patches[k] == p && t.patches[k + 1] == q
  {
    var k := |st.patches|;
    ExtendsKeeps(d, t, k + 2);
    assert d.patches[..k] == st.patches;
  }

  /** The n-th page of a page list, counting from 1. */
  function PageOf(pages: seq<Ref>, n: int): (r: Option<Ref>)
    ensures r.Some? <==> 1 <= n <= |pages|
    ensures r.Some? ==> r.value == pages[n - 1]
  {
    if 1 <= n <= |pages| then Some(pages[n - 1]) else None
  }

  /**
   * The document: its original objects, the AcroForm reference and the page
   * list are fixed; the ledger and the counter change.
   */
  class Document {
    const objects: map<Ref, string>
    const acroForm: Option<Ref>
    const pages: seq<Ref>
    var patches: seq<Patch>
    var lastNumber: int
    const allocator: (seq<Patch>, int) -> int

    /** The AcroForm and every page have a body, the counter covers the original table, and the allocator is `AboveAll`. */
    ghost predicate Valid()
      reads this
    {
      State().Numbered() && AboveAll(allocator) &&
      (acroForm.Some? ==> acroForm.value in objects) &&
      (forall i :: 0 <= i < |pages| ==> pages[i] in objects)
    }

    function State(): Store
      reads this
    {
      Store(objects, patches, lastNumber, allocator)
    }

    constructor(objects: map<Ref, string>, acroForm: Option<Ref>, pages: seq<Ref>, lastNumber: int,
                allocator: (seq<Patch>, int) -> int)
      requires forall r :: r in objects ==> r.num <= lastNumber
      requires AboveAll(allocator)
      requires acroForm.Some? ==> acroForm.value in objects
      requires forall i :: 0 <= i < |pages| ==> pages[i] in objects
      ensures Valid()
      ensures State() == Store(objects, [], lastNumber, allocator)
      ensures this.acroForm == acroForm && this.pages == pages
    {
      this.objects := objects;
      this.acroForm := acroForm;
      this.pages := pages;
      this.patches := [];
      this.lastNumber := lastNumber;
      this.allocator := allocator;
    }

    /** `find_page_by_number(n)`. */
    function FindPageByNumber(n: int): (r: Option<Ref>)
      reads this
      ensures r == PageOf(pages, n)
      ensures r.Some? ==> r.value in objects || !Valid()
    {
      PageOf(pages, n)
    }

    method GetObjectBodyWithPatch(r: Ref) returns (b: Option<string>)
      ensures b == State().Lookup(r)
    {
      b := LookupIn(patches, objects, r);
    }

    method PushPatch(r: Ref, body: string)
      modifies this
      ensures State() == old(State()).Push(r, body)
      ensures old(Valid()) ==> Valid()
    {
      patches := patches + [Patch(r, body)];
    }

    method ApplyPatch(r: Ref, newBody: string, oldBody: string)
      modifies this
      ensures State() == old(State()).ApplyPatch(r, newBody, oldBody)
      ensures old(Valid()) ==> Valid()
    {
      if newBody != oldBody {
        patches := patches + [Patch(r, newBody)];
      }
    }

    method NextFreshObjectNumber() returns (n: int)
      modifies this
      ensures (State(), n) == old(State()).Allocate()
      ensures old(Valid()) ==> Valid()
    {
      n := allocator(patches, lastNumber);
      lastNumber := n;
    }
  }
}
