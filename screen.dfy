/**
 The product-stack screen as a stateful object: the product list it holds in
 its state, the host snapshot that resets it, and the two ways the list
 changes (a swipe, and the end of a drag).
 */
module Screen {
  import opened Stack
  import opened CardView

  /**
   The reset effect: a snapshot that is present (an empty list included)
   replaces the local list wholesale, and a missing one leaves it alone.
   */
  function ApplySnapshot(local: Option<seq<Product>>, snapshot: Option<seq<Product>>): (r: Option<seq<Product>>)
    ensures snapshot.Some? ==> r == snapshot
    ensures snapshot.None? ==> r == local
  {
    if snapshot.Some? then snapshot else local
  }

  class SwipeScreen {
    /** The list in the screen's state; `None` while the host has not supplied one. */
    var products: Option<seq<Product>>
    /** The latest list the host supplied, if any. */
    ghost var snapshot: Option<seq<Product>>

    /**
     Before any snapshot the list is missing or empty; after one, it holds the
     snapshot's products in some order, and ids stay unique when they were.
     */
    ghost predicate Valid()
      reads this
    {
      (snapshot.None? ==> products.None? || products == Some([]))
      && (snapshot.Some? ==>
            products.Some?
            && (UniqueIds(snapshot.value) ==>
                  multiset(products.value) == multiset(snapshot.value) && UniqueIds(products.value)))
    }

    /** The screen starts from whatever the host holds when it mounts. */
    constructor (initial: Option<seq<Product>>)
      ensures Valid()
      ensures products == initial && snapshot == initial
    {
      products := initial;
      snapshot := initial;
    }

    /** The loading message is shown exactly when no card is rendered. */
    function ShowsLoading(): (r: bool)
      reads this
      ensures r <==> VisiblePair(products) == []
    {
      products.None? || |products.value| == 0
    }

    /** The host's product list changed. */
    method ReceiveSnapshot(next: Option<seq<Product>>)
      requires Valid()
      modifies this
      ensures Valid()
      ensures products == ApplySnapshot(old(products), next)
      ensures snapshot == if next.Some? then next else old(snapshot)
    {
      if next.Some? {
        products := next;
        snapshot := next;
      }
    }

    /** `handleSwipe(id)`: the state becomes the reordered list. */
    method Swipe(id: string)
      requires Valid()
      modifies this
      ensures Valid() && snapshot == old(snapshot)
      ensures products == Some(HandleSwipe(old(products), id))
    {
      if products.Some? && UniqueIds(products.value) {
        SwipePermutes(products.value, id);
      }
      products := Some(HandleSwipe(products, id));
    }

    /** The draggable card was released at horizontal offset `offsetX`. */
    method DragEnd(offsetX: real)
      requires Valid()
      modifies this
      ensures Valid() && snapshot == old(snapshot)
      ensures products == OnDragEnd(old(products), offsetX)
    {
      var top := DraggableCard(products);
      if top.Some? && Commits(offsetX) {
        Swipe(top.value.id);
      }
    }
  }
}
