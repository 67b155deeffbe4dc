# Swipe-stack product screen

A model of the product screen of a shop mini-app. The screen keeps a list of
products in its state and shows its first two as a stack of cards. The front
product's card can be dragged sideways. A drag released more than 100 units
away from the start "swipes" that product: `handleSwipe` moves it to the back
of the list. When the host hands over a new product list, that list replaces
the local one wholesale.

Products are modelled as `Product(id, title)`. The `id` is what the screen
looks products up by. The `title` stands for the rest of the host's record, so
two products that share an id can still be told apart.

- `stack.dfy` (module `Stack`): the list operations `find` and `filter`,
  `handleSwipe`'s state updater, and its properties.
- `view.dfy` (module `CardView`): the rendered pair, the draggable card, the
  drag threshold, the effect of a finished drag, and the full cycle of swipes.
- `screen.dfy` (module `Screen`): the screen as an object. It holds the list
  field, resets it from host snapshots, and applies swipes and drags. It keeps
  an invariant: when the latest snapshot's ids are unique, the local list is a
  permutation of that snapshot.

Behaviour of the code worth knowing:

- The cards on screen are the first two products (`products.slice(0, 2)`),
  reversed.
- A swipe removes every product carrying the swiped id and puts back only the
  first. With repeated ids the list shrinks (`DuplicateIdsAreDropped`); with
  unique ids it is a permutation (`SwipePermutes`).
- A product rendered alone sits at index 0 of the pair. It is not the top card,
  so it cannot be dragged (`SingleCardNotDraggable`). Swiping it would leave
  the list unchanged anyway.
- An empty list from the host is still a list (JavaScript arrays are truthy).
  So it replaces the local list; only a missing one is ignored.

## Model

| member | source | states |
|---|---|---|
| Stack.Find | src/App.tsx:21 | the result is missing exactly when no product has the id; otherwise it is the first product carrying it |
| Stack.Without | src/App.tsx:23 | no product in the result carries the id; its length is the input length minus the number of products carrying the id |
| Stack.WithoutMembers | src/App.tsx:23 | a product is in the filtered list exactly when it is in the input and does not carry the id |
| Stack.HandleSwipe | src/App.tsx:18-25 | a missing list gives the empty list; an absent id gives the input unchanged; a present id ends up exactly once, at the back |
| Stack.SwipeKeepsOthersInOrder | src/App.tsx:23-24 | products without the swiped id keep their relative order |
| Stack.SwipeMovesFirstMatchToBack | src/App.tsx:21-24 | the last product of the result is the first input product carrying the id |
| Stack.SwipeLength | src/App.tsx:21-24 | an absent id keeps the length; a present id drops all its copies and adds one back |
| Stack.DuplicateIdsAreDropped | src/App.tsx:21-24 | with two products sharing the id, only the first survives the swipe |
| Stack.SwipePermutes | src/App.tsx:21-24 | with unique ids, the result has the same length and the same products, and its ids stay unique |
| Stack.SwipeIdempotent | src/App.tsx:18-25 | swiping the same id twice in a row equals swiping it once, for every list |
| Stack.SwipeMovesToBack | src/App.tsx:21-24 | with unique ids, swiping the product at position i gives the list without it, in order, followed by it |
| Stack.SwipeFrontRotates | src/App.tsx:18-25 | with unique ids, swiping the front product rotates the list left by one |
| Stack.SwipeMiddleExample | src/App.tsx:18-25 | swiping B in [A, B, C] gives [A, C, B] |
| CardView.Take | src/App.tsx:55 | `slice(0, n)`: the first min(n, length) products, in order |
| CardView.Reverse | src/App.tsx:55 | `reverse()`: same length, position k holds the input's position length-1-k |
| CardView.VisiblePair | src/App.tsx:55 | no card for a missing list; otherwise at most two cards: the first products of the list, in reverse order |
| CardView.DraggableCard | src/App.tsx:55-56 | a card can be dragged exactly when the list has two products or more, and that card is the front product |
| CardView.SingleCardNotDraggable | src/App.tsx:55-56 | a lone product is rendered but cannot be dragged, and swiping it would change nothing |
| CardView.Commits | src/App.tsx:76 | a release commits exactly when the offset is below -100 or above 100 |
| CardView.ReleaseAtThresholdKeepsList | src/App.tsx:76-77 | a release at exactly +100 or -100 leaves the list untouched |
| CardView.OnDragEnd | src/App.tsx:75-79 | no commit or fewer than two products: list unchanged; otherwise the front product is swiped; a missing list stays missing |
| CardView.DragCommitRotates | src/App.tsx:75-79 | with unique ids, a committing drag moves the front product to the back |
| CardView.DragRepeatedlyRotates | src/App.tsx:75-79 | with unique ids, k committing drags rotate the list left by k, for k up to its length |
| CardView.FullCycleRestoresOrder | src/App.tsx:75-79 | with unique ids, one committing drag per product restores the original order |
| Screen.ApplySnapshot | src/App.tsx:12-16 | a present snapshot, empty or not, replaces the local list; a missing one keeps it |
| Screen.SwipeScreen.constructor | src/App.tsx:9-10 | the state starts as the host's current list, which is also the latest snapshot |
| Screen.SwipeScreen.ShowsLoading | src/App.tsx:31-37 | the loading message is shown exactly when no card is rendered |
| Screen.SwipeScreen.ReceiveSnapshot | src/App.tsx:12-16 | the state becomes `ApplySnapshot` of the old state; when the latest snapshot's ids are unique, the list is a permutation of that snapshot |
| Screen.SwipeScreen.Swipe | src/App.tsx:18-25 | the state becomes `HandleSwipe` of the old state; when the latest snapshot's ids are unique, it remains a permutation of that snapshot |
| Screen.SwipeScreen.DragEnd | src/App.tsx:75-79 | the state becomes `OnDragEnd` of the old state; when the latest snapshot's ids are unique, it remains a permutation of that snapshot |

## Left out

- Product fields other than `id` are folded into one `title` string. The host SDK (`usePopularProducts`) and the card renderer (`ProductCard`) are external components, so they are not modelled.
- The rotation angle (`useTransform` over the drag offset) and the card scale, vertical offset and stacking order are floating-point animation and presentation. The drag offset enters the model only through the threshold test, as a `real`. NaN and infinite offsets are not modelled.
- React scheduling is not modelled: batching of state updates, effects running after render, and the host list changing in the middle of a drag. The model applies each event to the latest state, one at a time.
- The unused `topProduct` binding and the text and markup of the page have no behaviour to model.
- The development-server proxy (`vite.config.mjs`) is network configuration and is not part of this model.
