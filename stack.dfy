/**
 The swipe-stack reorder of the product screen: the list of products that the
 screen keeps in its state, and `handleSwipe`, which moves a swiped product to
 the back of that list.

 A product is known to this model by its `id` (the key the screen looks it up
 by) and its `title` (standing for everything else the host attaches to it, so
 that two products sharing an id can still be told apart).
 */
module Stack {

  datatype Option<+T> = None | Some(value: T)

  datatype Product = Product(id: string, title: string)

  /** Some product in `s` carries the id `id`. */
  predicate HasId(s: seq<Product>, id: string) {
    exists i :: 0 <= i < |s| && s[i].id == id
  }

  /** No two positions of `s` carry the same id. */
  predicate UniqueIds(s: seq<Product>) {
    forall i, j :: 0 <= i < |s| && 0 <= j < |s| && s[i].id == s[j].id ==> i == j
  }

  /** Number of products in `s` that carry the id `id`. */
  function CountId(s: seq<Product>, id: string): nat {
    if s == [] then 0 else (if s[0].id == id then 1 else 0) + CountId(s[1..], id)
  }

  /** Position of the first product carrying `id`, or `|s|` when there is none. */
  function FirstIndex(s: seq<Product>, id: string): (i: nat)
    ensures i <= |s|
    ensures i < |s| ==> s[i].id == id
    ensures forall j :: 0 <= j < i ==> s[j].id != id
    ensures i == |s| <==> !HasId(s, id)
  {
    if s == [] then 0
    else if s[0].id == id then 0
    else 1 + FirstIndex(s[1..], id)
  }

  /** `s.find(p => p.id === id)`: the first product carrying `id`, if any. */
  function Find(s: seq<Product>, id: string): (r: Option<Product>)
    ensures r.None? <==> !HasId(s, id)
    ensures forall i :: 0 <= i < |s| && s[i].id == id && (forall j :: 0 <= j < i ==> s[j].id != id) ==> r == Some(s[i])
  {
    var i := FirstIndex(s, id);
    if i < |s| then Some(s[i]) else None
  }

  /** `s.filter(p => p.id !== id)`: every product not carrying `id`, in order. */
  function Without(s: seq<Product>, id: string): (r: seq<Product>)
    ensures |r| == |s| - CountId(s, id)
    ensures forall k :: 0 <= k < |r| ==> r[k].id != id
  {
    if s == [] then []
    else if s[0].id == id then Without(s[1..], id)
    else [s[0]] + Without(s[1..], id)
  }

  /**
   `handleSwipe`'s state updater: a missing list becomes the empty list; an id
   that no product carries leaves the list as it is; otherwise the first product
   with that id goes to the back and every other product with that id is dropped.
   */
  function HandleSwipe(current: Option<seq<Product>>, id: string): (r: seq<Product>)
    ensures current.None? ==> r == []
    ensures current.Some? && !HasId(current.value, id) ==> r == current.value
    ensures current.Some? && HasId(current.value, id) ==>
      |r| > 0 && r[|r| - 1].id == id && forall k :: 0 <= k < |r| - 1 ==> r[k].id != id
  {
    match current
    case None => []
    case Some(s) =>
      match Find(s, id)
      case None => s
      case Some(swiped) => Without(s, id) + [swiped]
  }

  // ---------------------------------------------------------------------------
  // Filtering

  lemma {:induction false} WithoutAbsent(s: seq<Product>, id: string)
    requires !HasId(s, id)
    ensures Without(s, id) == s
  {
    if s != [] {
      assert s[0].id != id;
      assert !HasId(s[1..], id) by {
        forall i | 0 <= i < |s[1..]| ensures s[1..][i].id != id {
          assert s[1..][i] == s[i + 1];
        }
      }
      WithoutAbsent(s[1..], id);
    }
  }

  /** The filter keeps exactly the products of `s` that do not carry `id`. */
  lemma {:induction false} WithoutMembers(s: seq<Product>, id: string)
    ensures forall p :: p in Without(s, id) <==> p in s && p.id != id
  {
    if s != [] {
      WithoutMembers(s[1..], id);
      assert s == [s[0]] + s[1..];
    }
  }

  lemma {:induction false} WithoutAppend(a: seq<Product>, b: seq<Product>, id: string)
    ensures Without(a + b, id) == Without(a, id) + Without(b, id)
  {
    if a == [] {
      assert a + b == b;
    } else {
      assert (a + b)[0] == a[0];
      assert (a + b)[1..] == a[1..] + b;
      WithoutAppend(a[1..], b, id);
    }
  }

  /** With unique ids, filtering out the id of position `i` removes exactly that position. */
  lemma WithoutUnique(s: seq<Product>, id: string, i: nat)
    requires UniqueIds(s) && i < |s| && s[i].id == id
    ensures Without(s, id) == s[..i] + s[i + 1..]
  {
    var prefix, suffix := s[..i], s[i + 1..];
    NoOtherCopy(s, id, i);
    WithoutAbsent(prefix, id);
    WithoutAbsent(suffix, id);
    WithoutOne(s[i], id);
    WithoutAppend(prefix, [s[i]], id);
    assert Without(prefix + [s[i]], id) == prefix;
    WithoutAppend(prefix + [s[i]], suffix, id);
    assert s == prefix + [s[i]] + suffix;
  }

  lemma WithoutOne(p: Product, id: string)
    requires p.id == id
    ensures Without([p], id) == []
  {
    assert [p][1..] == [];
  }

  /** With unique ids, no position before or after `i` carries the id of position `i`. */
  lemma NoOtherCopy(s: seq<Product>, id: string, i: nat)
    requires UniqueIds(s) && i < |s| && s[i].id == id
    ensures !HasId(s[..i], id) && !HasId(s[i + 1..], id)
  {
    var prefix, suffix := s[..i], s[i + 1..];
    forall k | 0 <= k < |prefix| ensures prefix[k].id != id {
      assert prefix[k] == s[k];
    }
    forall k | 0 <= k < |suffix| ensures suffix[k].id != id {
      assert suffix[k] == s[i + 1 + k];
    }
  }

  // ---------------------------------------------------------------------------
  // Properties of the swipe

  /** The products that do not carry the swiped id keep their relative order. */
  lemma SwipeKeepsOthersInOrder(current: Option<seq<Product>>, id: string)
    requires current.Some?
    ensures Without(HandleSwipe(current, id), id) == Without(current.value, id)
  {
    var s := current.value;
    match Find(s, id)
    case None =>
    case Some(swiped) =>
      var w := Without(s, id);
      WithoutAppend(w, [swiped], id);
      WithoutAbsent(w, id);
      WithoutOne(swiped, id);
  }

  /** When the id is present, the back of the result is the first product carrying it. */
  lemma SwipeMovesFirstMatchToBack(s: seq<Product>, id: string, i: nat)
    requires i < |s| && s[i].id == id
    requires forall j :: 0 <= j < i ==> s[j].id != id
    ensures var r := HandleSwipe(Some(s), id); |r| > 0 && r[|r| - 1] == s[i]
  {
  }

  /**
   How long the result is: an absent id keeps the length, a present one drops
   every copy and puts one back, so duplicates shrink the list.
   */
  lemma SwipeLength(s: seq<Product>, id: string)
    ensures !HasId(s, id) ==> |HandleSwipe(Some(s), id)| == |s|
    ensures HasId(s, id) ==> |HandleSwipe(Some(s), id)| == |s| - CountId(s, id) + 1
  {
  }

  /** Two products sharing an id: the swipe keeps only the first of them. */
  lemma DuplicateIdsAreDropped()
    ensures HandleSwipe(Some([Product("a", "x"), Product("a", "y")]), "a") == [Product("a", "x")]
  {
    var s := [Product("a", "x"), Product("a", "y")];
    assert FirstIndex(s, "a") == 0;
    assert s[1..] == [Product("a", "y")];
    assert s[1..][1..] == [];
  }

  /** Moving position `i` of a list with unique ids to the back keeps the ids unique. */
  lemma MoveToBackUnique(s: seq<Product>, i: nat)
    requires UniqueIds(s) && i < |s|
    ensures UniqueIds(s[..i] + s[i + 1..] + [s[i]])
  {
    var t := s[..i] + s[i + 1..] + [s[i]];
    assert |t| == |s|;
    forall k, l | 0 <= k < |t| && 0 <= l < |t| && t[k].id == t[l].id ensures k == l {
      var pk := if k < i then k else if k < |s| - 1 then k + 1 else i;
      var pl := if l < i then l else if l < |s| - 1 then l + 1 else i;
      assert t[k] == s[pk];
      assert t[l] == s[pl];
    }
  }

  /**
   With unique ids the swipe is a permutation: same length, same products, and
   the ids stay unique.
   */
  lemma SwipePermutes(s: seq<Product>, id: string)
    requires UniqueIds(s)
    ensures var r := HandleSwipe(Some(s), id);
      |r| == |s| && multiset(r) == multiset(s) && UniqueIds(r)
  {
    var i := FirstIndex(s, id);
    if i < |s| {
      SwipeMovesToBack(s, i);
      assert s == s[..i] + [s[i]] + s[i + 1..];
      MoveToBackUnique(s, i);
    }
  }

  /**
   With unique ids, swiping the product at position `i` takes it out of its place
   and puts it at the back; the products before and after it close up in order.
   */
  lemma SwipeMovesToBack(s: seq<Product>, i: nat)
    requires UniqueIds(s) && i < |s|
    ensures HandleSwipe(Some(s), s[i].id) == s[..i] + s[i + 1..] + [s[i]]
  {
    WithoutUnique(s, s[i].id, i);
    NoOtherCopy(s, s[i].id, i);
    assert FirstIndex(s, s[i].id) == i;
  }

  /** Swiping an id a second time, with nothing in between, changes nothing. */
  lemma SwipeIdempotent(current: Option<seq<Product>>, id: string)
    ensures HandleSwipe(Some(HandleSwipe(current, id)), id) == HandleSwipe(current, id)
  {
    var r := HandleSwipe(current, id);
    if current.Some? && HasId(current.value, id) {
      var s := current.value;
      var w := Without(s, id);
      var swiped := Find(s, id).value;
      assert r == w + [swiped];
      assert r[|w|] == swiped;
      assert Find(r, id) == Some(swiped);
      WithoutAppend(w, [swiped], id);
      WithoutAbsent(w, id);
      WithoutOne(swiped, id);
    }
  }

  /** With unique ids, swiping the front product rotates the list by one. */
  lemma SwipeFrontRotates(s: seq<Product>)
    requires UniqueIds(s) && |s| > 0
    ensures HandleSwipe(Some(s), s[0].id) == s[1..] + [s[0]]
  {
    WithoutUnique(s, s[0].id, 0);
  }

  /** An example: swiping B in [A, B, C] gives [A, C, B]. */
  lemma SwipeMiddleExample()
    ensures HandleSwipe(Some([Product("A", ""), Product("B", ""), Product("C", "")]), "B")
         == [Product("A", ""), Product("C", ""), Product("B", "")]
  {
    var a, b, c := Product("A", ""), Product("B", ""), Product("C", "");
    var s := [a, b, c];
    assert s[1..] == [b, c] && s[1..][1..] == [c] && [c][1..] == [];
    assert Without([c], "B") == [c];
    assert Without([b, c], "B") == [c];
    assert Without(s, "B") == [a, c];
    assert FirstIndex(s, "B") == 1;
  }
}
