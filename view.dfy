/**
 What the screen derives from the product list when it renders: the pair of
 cards on screen, which of them can be dragged, and whether a finished drag
 counts as a swipe.
 */
module CardView {
  import opened Stack

  /** Horizontal distance a drag must exceed, in either direction, to count as a swipe. */
  const SwipeThreshold: real := 100.0

  /** The first `n` products of `s`, or all of them when there are fewer (`s.slice(0, n)`). */
  function Take(s: seq<Product>, n: nat): (r: seq<Product>)
    ensures |r| == if n < |s| then n else |s|
    ensures forall k :: 0 <= k < |r| ==> r[k] == s[k]
  {
    if n < |s| then s[..n] else s
  }

  /** `t.reverse()`. */
  function Reverse(t: seq<Product>): (r: seq<Product>)
    ensures |r| == |t|
    ensures forall k {:trigger r[k]} :: 0 <= k < |r| ==> r[k] == t[|t| - 1 - k]
  {
    if t == [] then [] else Reverse(t[1..]) + [t[0]]
  }

  /**
   The cards on screen, bottom first: the first two products, reversed. A missing
   or empty list shows the loading message instead, so no card at all.
   */
  function VisiblePair(products: Option<seq<Product>>): (r: seq<Product>)
    ensures products.None? ==> r == []
    ensures products.Some? ==> |r| == if |products.value| < 2 then |products.value| else 2
    ensures products.Some? ==> forall k {:trigger r[k]} :: 0 <= k < |r| ==> r[k] == products.value[|r| - 1 - k]
  {
    match products
    case None => []
    case Some(s) => Reverse(Take(s, 2))
  }

  /**
   The card the user can drag: the one at index 1 of the pair. That is the front
   of the list, and it exists only when the list holds two products or more.
   */
  function DraggableCard(products: Option<seq<Product>>): (r: Option<Product>)
    ensures r.Some? <==> products.Some? && |products.value| >= 2
    ensures r.Some? ==> r.value == products.value[0]
  {
    var pair := VisiblePair(products);
    if |pair| > 1 then Some(pair[1]) else None
  }

  function Abs(x: real): real {
    if x < 0.0 then -x else x
  }

  /** A drag that ends at horizontal offset `offsetX` commits the swipe. */
  function Commits(offsetX: real): (r: bool)
    ensures r <==> offsetX < -SwipeThreshold || SwipeThreshold < offsetX
  {
    Abs(offsetX) > SwipeThreshold
  }

  /** A release exactly at the threshold, on either side, leaves the list as it is. */
  lemma ReleaseAtThresholdKeepsList(products: Option<seq<Product>>)
    ensures OnDragEnd(products, SwipeThreshold) == products
    ensures OnDragEnd(products, -SwipeThreshold) == products
  {
  }

  /**
   The product list after the draggable card is released at `offsetX`: a
   committing drag swipes that card; any other drag, or a list with no draggable
   card, leaves the list as it is.
   */
  function OnDragEnd(products: Option<seq<Product>>, offsetX: real): (r: Option<seq<Product>>)
    ensures r.Some? <==> products.Some?
    ensures !Commits(offsetX) ==> r == products
    ensures products.Some? && |products.value| < 2 ==> r == products
    ensures products.Some? && |products.value| >= 2 && Commits(offsetX) ==>
      r == Some(HandleSwipe(products, products.value[0].id))
  {
    match DraggableCard(products)
    case None => products
    case Some(top) => if Commits(offsetX) then Some(HandleSwipe(products, top.id)) else products
  }

  /**
   With unique ids, a committing drag moves the front product to the back and
   leaves every other product in order.
   */
  lemma DragCommitRotates(s: seq<Product>, offsetX: real)
    requires UniqueIds(s) && |s| >= 2 && Commits(offsetX)
    ensures OnDragEnd(Some(s), offsetX) == Some(s[1..] + [s[0]])
  {
    SwipeFrontRotates(s);
  }

  /** The list after `k` drags of the top card, each released at `offsetX`. */
  function DragRepeatedly(s: seq<Product>, offsetX: real, k: nat): seq<Product>
    decreases k
  {
    if k == 0 then s
    else
      DragRepeatedly(OnDragEnd(Some(s), offsetX).value, offsetX, k - 1)
  }

  /** After `k` committing drags of the top card the list is rotated left by `k`. */
  lemma {:induction false} DragRepeatedlyRotates(s: seq<Product>, offsetX: real, k: nat)
    requires UniqueIds(s) && Commits(offsetX) && k <= |s|
    ensures DragRepeatedly(s, offsetX, k) == s[k..] + s[..k]
    decreases k
  {
    if k == 0 {
      assert s[0..] + s[..0] == s;
    } else if |s| < 2 {
      DragSingle(s, offsetX, k);
      assert s[1..] + s[..1] == s;
    } else {
      var t := s[1..] + [s[0]];
      FrontToBackUnique(s);
      calc {
        DragRepeatedly(s, offsetX, k);
        { DragFront(s, offsetX, k); }
        DragRepeatedly(t, offsetX, k - 1);
        { DragRepeatedlyRotates(t, offsetX, k - 1); }
        t[k - 1..] + t[..k - 1];
        { RotateTwice(s, k - 1); }
        s[k..] + s[..k];
      }
    }
  }

  /** A single product stays where it is however often it is dragged. */
  lemma {:induction false} DragSingle(s: seq<Product>, offsetX: real, k: nat)
    requires |s| < 2
    ensures DragRepeatedly(s, offsetX, k) == s
    decreases k
  {
    if k > 0 {
      DragSingle(s, offsetX, k - 1);
    }
  }

  /** The first of `k` committing drags moves the front of the list to the back. */
  lemma DragFront(s: seq<Product>, offsetX: real, k: nat)
    requires UniqueIds(s) && Commits(offsetX) && |s| >= 2 && k > 0
    ensures DragRepeatedly(s, offsetX, k) == DragRepeatedly(s[1..] + [s[0]], offsetX, k - 1)
  {
    DragCommitRotates(s, offsetX);
  }

  /** Rotating left by one and then by `k` is rotating left by `k + 1`. */
  lemma RotateTwice(s: seq<Product>, k: nat)
    requires 0 < |s| && k < |s|
    ensures var t := s[1..] + [s[0]]; t[k..] + t[..k] == s[k + 1..] + s[..k + 1]
  {
    var t := s[1..] + [s[0]];
    assert t[k..] == s[k + 1..] + [s[0]];
    assert t[..k] == s[1..k + 1];
    assert s[..k + 1] == [s[0]] + s[1..k + 1];
  }

  /** Moving the front of a list with unique ids to the back keeps its ids unique. */
  lemma FrontToBackUnique(s: seq<Product>)
    requires UniqueIds(s) && |s| > 0
    ensures UniqueIds(s[1..] + [s[0]])
  {
    MoveToBackUnique(s, 0);
    assert s[..0] + s[1..] == s[1..];
  }

  /** With unique ids, dragging the top card away once per product restores the original order. */
  lemma FullCycleRestoresOrder(s: seq<Product>, offsetX: real)
    requires UniqueIds(s) && Commits(offsetX)
    ensures DragRepeatedly(s, offsetX, |s|) == s
  {
    DragRepeatedlyRotates(s, offsetX, |s|);
    assert s[|s|..] + s[..|s|] == s;
  }

  /** A product alone on screen is drawn beneath the top position and cannot be dragged. */
  lemma SingleCardNotDraggable(p: Product)
    ensures VisiblePair(Some([p])) == [p]
    ensures DraggableCard(Some([p])) == None
    ensures HandleSwipe(Some([p]), p.id) == [p]
  {
    assert [p][1..] == [];
  }
}
