# Kanban board store, modelled in Dafny

A model of the state core of a Trello-style Kanban board written in
TypeScript/React. A board holds an ordered sequence of lists, a list an
ordered sequence of cards, and a card an ordered comment thread. The model
covers three parts of the program:

- **The board store** (`hooks/useBoard.ts`). Every operation takes the previous
  board snapshot and returns the next one: rename the board, add, rename,
  delete or reorder a list, add or rename a card, move a card within a list
  or between lists, and append a comment to a card.
  - Module `BoardStore` holds these functions.
  - Module `Splice` models the two `Array.prototype.splice` steps that
    `moveList` and `moveCard` apply to a copy of an array: remove one element,
    then insert one. It keeps JavaScript's start-index normalisation: a
    negative index counts from the end, and indices are clamped to the array.
- **The drag-end handler** (`handleDragEnd` in `components/Board.tsx`). It turns
  the dragged item and the drop target into at most one store command.
  - Module `DragDrop` models it as a function that returns an optional
    `Command`.
  - What is dragged, and what it is dropped on, is told apart by the id's
    prefix: `list-`, `card-`, or `droppable-` for a list's card area.
- **Initial board selection** (`getInitialBoard` in
  `services/storage.service.ts`). Module `Storage` returns the stored board
  when there is one, else the fixed demo board. The storage read is an
  `Option<Board>` parameter.

Module `Types` holds the data model of `types/index.ts`, the `find`/`findIndex`
lookups, and `AllCards`: every card of the board, list by list, used to state
card conservation.

Module `Scenarios` works the operations through on the demo board.

Everything is a function on immutable values, because that is what the
source does. Its updaters build a new snapshot with spreads, `map`, `filter`
and `find`. It calls `splice`
in place six times, of two kinds: remove one element, then insert one. Each
call acts on a fresh `Array.from` copy that nothing else can see.

The clock is a parameter:
- `now: nat` stands for `Date.now()`; new ids are the prefix followed by its
  decimal digits.
- `createdAt: string` stands for `new Date().toLocaleString()`.

Ids are plain strings. The types do not make them distinct, and ids built
from the clock collide when two are created in the same millisecond. The
properties that need distinct list ids take `UniqueListIds` as a precondition.
The demo board is proved to satisfy it.

## Model

| member | source | states |
|---|---|---|
| Types.FindListIndex | components/Board.tsx:139-140 | `findIndex`: the first position whose list has the id; it is none exactly when no list has it |
| Types.FindList | hooks/useBoard.ts:131 | `find`: some list exactly when a list has the id, and the list returned is on the board with that id |
| Types.FindListIsFirst | hooks/useBoard.ts:131 | `find` and `findIndex` agree: `find` returns the list at the first position with the id, and finds nothing exactly when `findIndex` does |
| Types.FindUnique | hooks/useBoard.ts:131 | with distinct list ids, looking up the id of the list at position k finds position k and that list |
| Splice.StartIndex | hooks/useBoard.ts:80-81 | the start position `splice` uses: within the array; an in-range index is kept; a negative index down to -length counts back from the end (length + k); one below that gives 0; one past the end is clamped to the length |
| Splice.RemoveAt | hooks/useBoard.ts:143 | `splice(k, 1)` on an existing position drops exactly that element (length one less, multiset minus it); past the end it changes nothing |
| Splice.InsertAt | hooks/useBoard.ts:144 | `splice(k, 0, x)` adds exactly x (length one more, multiset plus x), and x sits at the normalised start |
| Splice.RemoveAtPositions | hooks/useBoard.ts:161 | after a removal, elements before the gap keep their position and those behind it move up by one |
| Splice.InsertAtPositions | hooks/useBoard.ts:167 | after an insertion, elements before the start keep their position and the others move down by one |
| Splice.Move | hooks/useBoard.ts:142-144 | remove-then-insert is a permutation, and the moved element sits at the normalised destination |
| Splice.MoveNormalised | hooks/useBoard.ts:144 | a move depends on the destination only through its normalised value |
| Splice.MoveIsShift | hooks/useBoard.ts:142-144 | for in-range positions, remove-then-insert equals the reference move `Shifted`: the element lands at `to` and everything between shifts one place towards the vacated slot |
| Splice.RemoveInserted | hooks/useBoard.ts:143-144 | removing at the position just inserted at gives the sequence back |
| Splice.InsertRemoved | hooks/useBoard.ts:143-144 | inserting a removed element back at its old position gives the sequence back |
| Splice.MoveRoundTrip | hooks/useBoard.ts:142-144 | moving from i to j and then from j to i restores the sequence |
| Splice.MoveInPlace | hooks/useBoard.ts:142-144 | moving an element to its own position changes nothing |
| Splice.MoveOnto | hooks/useBoard.ts:142-144 | moving onto another's position: the element takes it, and the displaced one ends just before it when moving down, just after it when moving up |
| BoardStore.Decimal | hooks/useBoard.ts:40 | the rendered number is non-empty, made of digits only, and has no leading zero (it starts with `0` only for 0) |
| BoardStore.DecimalValue | hooks/useBoard.ts:40 | the digits read back, most significant first, as exactly the number rendered |
| BoardStore.PrefixedId | hooks/useBoard.ts:40 | a generated id is its prefix (`list-`, `card-` at line 91, `comment-` at line 181) followed by one or more digits and nothing else; those digits spell out the clock value `now` with no leading zero |
| BoardStore.UpdateBoardTitle | hooks/useBoard.ts:28-33 | the board's title becomes the new one; its id and lists are kept |
| BoardStore.UpdateBoardTitleLastWins | hooks/useBoard.ts:28-33 | of two renames the last wins, and renaming to the current title is a no-op |
| BoardStore.AddList | hooks/useBoard.ts:36-49 | one list is appended after the existing ones, which keep their positions; it has the given title, no cards and the id `PrefixedId("list-", now)`, the `list-` prefix followed by the clock's digits; the board's cards are unchanged |
| BoardStore.UpdateListTitle | hooks/useBoard.ts:52-62 | only titles change, and exactly those of the lists with the id; ids, order and cards are kept |
| BoardStore.UpdateListTitleNoMatch | hooks/useBoard.ts:52-62 | renaming a list that is not on the board changes nothing |
| BoardStore.UpdateListTitleFound | hooks/useBoard.ts:52-62 | after a rename, the lookup of that id finds the list with the new title and its old cards |
| BoardStore.WithoutList | hooks/useBoard.ts:70 | the filter never lengthens the lists |
| BoardStore.WithoutListMembers | hooks/useBoard.ts:70 | the filter keeps exactly the lists whose id differs |
| BoardStore.DeleteList | hooks/useBoard.ts:65-73 | a list remains exactly when it was on the board and does not have the id; the board's id and title are kept |
| BoardStore.WithoutAbsent | hooks/useBoard.ts:70 | filtering out an id that no list has keeps every list, in order |
| BoardStore.WithoutAt | hooks/useBoard.ts:70 | with distinct ids, filtering out the id of list k removes exactly position k and keeps the rest in order |
| BoardStore.DeleteListNoMatch | hooks/useBoard.ts:65-73 | deleting a list that is not on the board changes nothing |
| BoardStore.DeleteListAt | hooks/useBoard.ts:65-73 | deleting list k leaves the other lists in order; the board's card multiset and count drop by exactly that list's cards |
| BoardStore.MoveList | hooks/useBoard.ts:76-84 | the lists are a permutation of the old ones, and the moved list sits at the normalised end index |
| BoardStore.MoveListRoundTrip | hooks/useBoard.ts:76-84 | for positions on the board, `moveList(i, j)` followed by `moveList(j, i)` restores the board |
| BoardStore.MoveListInPlace | hooks/useBoard.ts:76-84 | moving a list onto its own position changes nothing |
| BoardStore.AllCardsRemoveAt | hooks/useBoard.ts:80 | removing a list removes exactly its cards from the board |
| BoardStore.AllCardsInsertAt | hooks/useBoard.ts:81 | inserting a list adds exactly its cards to the board |
| BoardStore.MoveListKeepsCards | hooks/useBoard.ts:76-84 | reordering lists keeps the board's card multiset |
| BoardStore.AddCard | hooks/useBoard.ts:87-104 | every list with the id gains one new card with the title and no comments, at its end; every other list is unchanged; ids, titles and order of lists are kept |
| BoardStore.AddCardNoMatch | hooks/useBoard.ts:87-104 | adding a card to a list that is not on the board changes nothing |
| BoardStore.AddCardAt | hooks/useBoard.ts:87-104 | with distinct ids, only list k changes, and the board's cards grow by exactly the new card |
| BoardStore.UpdateCardTitle | hooks/useBoard.ts:107-120 | only titles change, and exactly those of the cards with the id; card ids, comments, card order and list fields are kept |
| BoardStore.UpdateCardTitleNoMatch | hooks/useBoard.ts:107-120 | renaming a card that is not on the board changes nothing |
| BoardStore.MoveCard | hooks/useBoard.ts:123-174 | the board's id and title and the lists' ids, titles and number are kept; lists that are neither source nor destination are unchanged |
| BoardStore.MoveCardNoSource | hooks/useBoard.ts:131-134 | with no source list, or a source index that addresses no card, the board is returned unchanged |
| BoardStore.ReorderShape | hooks/useBoard.ts:137-152 | a same-list move replaces that list's cards by remove-then-insert and leaves every other list as it was |
| BoardStore.MoveCardWithin | hooks/useBoard.ts:137-152 | a same-list move keeps that list's card multiset and the board's card multiset and count |
| BoardStore.MoveCardInPlace | hooks/useBoard.ts:137-152 | moving a card onto its own position changes nothing |
| BoardStore.TransferShape | hooks/useBoard.ts:155-172 | a move between lists changes exactly the source list (card removed) and the destination list (card inserted) |
| BoardStore.MoveCardAcross | hooks/useBoard.ts:155-172 | the source list loses exactly the card at sourceIndex, the destination gains that card at the normalised destination index, and the board keeps its card multiset and count |
| BoardStore.TransferKeepsCards | hooks/useBoard.ts:155-172 | taking a card out of one list and inserting it into another keeps the board's card multiset and count |
| BoardStore.MoveCardOnto | hooks/useBoard.ts:137-152 | a same-list move onto another card's position: the moved card takes the position, the displaced card steps towards the vacated slot, the cards are a permutation, and other lists are unchanged |
| BoardStore.MoveCardAfter | hooks/useBoard.ts:155-172 | moving a card to another list at j + 1 puts it right after the card at j, which stays in place |
| BoardStore.MoveCardToEnd | hooks/useBoard.ts:123-174 | moving a card to the card count of a list, its own or another, puts it last there; the board keeps its cards |
| BoardStore.MoveCardToMissingList | hooks/useBoard.ts:155-172 | when no list has the destination id, the card is removed from its source and leaves the board: one card fewer |
| BoardStore.NewComment | hooks/useBoard.ts:180-185 | the new comment is authored by `You`, holds the content and the time, and has the id `PrefixedId("comment-", now)`, the `comment-` prefix followed by the clock's digits |
| BoardStore.AddComment | hooks/useBoard.ts:177-198 | each card with the id gains exactly the new comment at the end of its thread; every other card, and all ids, titles and orders, are unchanged |
| BoardStore.AddCommentAppendOnly | hooks/useBoard.ts:177-198 | every card's earlier comments stay a prefix of its thread; the thread grows by one exactly when the card has the id, and the new comment is by `You` |
| BoardStore.AddCommentNoMatch | hooks/useBoard.ts:177-198 | commenting on a card that is not on the board changes nothing |
| DragDrop.PrefixesDisjoint | components/Board.tsx:138-179 | no id has two of the prefixes `list-`, `card-`, `droppable-`, so the branches of the handler never overlap |
| DragDrop.IndexOrMinusOne | components/Board.tsx:139-140 | `findIndex`: -1 exactly when no list has the id, otherwise the first position whose list has the id |
| DragDrop.ListDropIntended | components/Board.tsx:138-146 | corrected list branch: a reorder is issued only between two positions on the board, holding the dragged list and the target list |
| DragDrop.EmitCardMove | components/Board.tsx:192-194 | a card move is issued exactly when the lists or the indices differ, and it carries the computed arguments |
| DragDrop.ListDrop | components/Board.tsx:138-146 | the list branch as written: no command exactly when the two `findIndex` results agree; otherwise a list reorder whose start is the dragged list's position and whose end the target's, each -1 exactly when no list has that id |
| DragDrop.CardDrop | components/Board.tsx:148-194 | the card branch, case by case: on a card of the same list, nothing when the indices agree, else that index; on a card of another list, the index after it; on a list or card area, that list's card count, 0 when no list has the id; on any other target, nothing |
| DragDrop.DragEnd | components/Board.tsx:132-196 | no target gives no command; with a target, a dragged list gives exactly the list branch, a dragged card exactly the card branch, anything else nothing; a list reorder has different indices; a card move starts at the card's list and index and would move something |
| DragDrop.DragEndIntended | components/Board.tsx:132-196 | the corrected handler: list reorders only between positions on the board; for anything but a dragged list it agrees with the handler as written |
| DragDrop.DropCardOnCardSameList | components/Board.tsx:157-174 | a card dropped on another card of its own list is sent to the target's index, whether it moves up or down |
| DragDrop.DropCardOnCardOtherList | components/Board.tsx:175-178 | a card dropped on a card of another list is sent to the index just after the target |
| DragDrop.DropCardOnOwnPosition | components/Board.tsx:171-174 | a card dropped on a card of its own list with the same index issues nothing |
| DragDrop.DropCardOnOtherTarget | components/Board.tsx:188-190 | a card dropped on a target with none of the prefixes `card-`, `list-`, `droppable-` issues nothing |
| DragDrop.DropCardOnMissingList | components/Board.tsx:179-194 | a card dropped on a list or card area whose list is not on the board is sent to index 0 of that id (a move whenever its own list differs) |
| DragDrop.ListTargetCommand | components/Board.tsx:179-187 | for a list or droppable-area target, the destination is the target's list and its card count |
| DragDrop.DropCardOnList | components/Board.tsx:179-194 | a card dropped on a list, or on its card area, is sent to the end of that list, its own list included |
| DragDrop.DropCardOnCardSameListMoves | components/Board.tsx:163-174 | applying the move issued for a drop on another card of the same list: only that list changes, the card takes the target's slot and the target steps towards the vacated one |
| DragDrop.DropCardOnCardOtherListMoves | components/Board.tsx:175-178 | applying the move issued for a drop on a card of another list: the card lands right after the target, which stays in place, and the board keeps its cards |
| DragDrop.DropCardOnListMoves | components/Board.tsx:179-194 | applying the move issued for a drop on a list or its card area: the card ends last in that list and the board keeps its cards |
| DragDrop.DropListOnList | components/Board.tsx:138-146 | a list dropped on another list takes its position (the two handlers agree), and dropped on itself issues nothing |
| DragDrop.ListDropOnNonListMoves | components/Board.tsx:138-146 | as written, a list dropped on a target that is not a list issues `moveList(old, -1)`, which puts the list second to last; the corrected handler issues nothing |
| Storage.GetInitialBoard | services/storage.service.ts:41-94 | a stored board is returned unchanged; otherwise the board is exactly the demo board, `board-1` "Demo Board" with three lists of distinct ids and three cards |
| Storage.DefaultBoardContents | services/storage.service.ts:49-93 | the demo board's lists, in order: Todo with card-1 and card-2 (no comments), In Progress with card-3 "Set up Next.js project", Done empty |
| Storage.DefaultBoardComment | services/storage.service.ts:76-83 | card-3 has exactly one comment, comment-1 "aaa" by `You`; the Todo cards have none |
| Storage.DefaultBoardCards | services/storage.service.ts:52-92 | the demo board's cards, in list order, are exactly card-1, card-2, card-3 |
| Storage.DefaultBoardIds | services/storage.service.ts:52-92 | demo list ids and card ids are pairwise distinct, each carries the prefix its drag branch tests, and there are three cards |
| Scenarios.MoveFirstCardAcross | hooks/useBoard.ts:155-172 | on a board with lists of two, one and any number of cards, moving the first card to index 1 of the second list gives exactly the expected lists |
| Scenarios.MoveCardOnDemoBoard | hooks/useBoard.ts:155-172 | on the demo board, moving card-1 to index 1 of In Progress leaves Todo with card-2 and puts card-1 after card-3; Done is untouched |
| Scenarios.MoveFirstOfThreeBack | hooks/useBoard.ts:79-81 | removing the first of three and then `splice(-1, 0, …)` puts it in the middle |
| Scenarios.AddListOnDemoBoard | hooks/useBoard.ts:36-49 | adding "Backlog" to the demo board appends a fourth, empty list after Done |
| Scenarios.FirstListDroppedOnNonList | components/Board.tsx:138-146 | on a three-list board, the first list dropped on a non-list issues `moveList(0, -1)`, which yields the order second, first, third; the corrected handler issues nothing |
| Scenarios.ListDroppedOnCardAreaOfDemoBoard | components/Board.tsx:138-146 | Todo dropped on Done's card area reorders the demo board to In Progress, Todo, Done |

## Left out

- React state handling is not modelled: `useState`, `useEffect`, `useCallback`, the `isLoading` gate and the guards that return a missing (`null`) snapshot unchanged. Every operation takes a concrete board.
- Persistence is not modelled: `localStorage`, `JSON.parse`/`JSON.stringify`, the save effect, and what happens when parsing fails. The storage read is the `stored` parameter.
- Clock and locale calls are not modelled: `Date.now()` and `new Date().toLocaleString()` are the `now` and `createdAt` parameters. No claim is made that generated ids are unique: two creations in the same millisecond share one.
- The drag-and-drop library is not modelled: its sensors, collision detection and sortable contexts. A drag event is the `Active`/`Over` datatypes, whose fields stand for `id` and `data.current`.
- The comments-modal synchronisation effect and the presentation components are not modelled, including their trim-and-non-empty input checks.
- BoardStore.MoveList: requires `0 <= startIndex < |lists|`. The handler can pass -1 as the start index, and DragDrop.ListDrop states that it does so exactly when the dragged list is not on the board. In that case JavaScript's `splice(-1, 1)` would remove the last list; that case is not modelled. The insert index is modelled in full, negatives and clamping included.
- DragDrop.DragEnd: a command is returned, not applied. Calling `onMoveList`/`onMoveCard` is the function's result. The lemmas DropCardOnCardSameListMoves, DropCardOnCardOtherListMoves and DropCardOnListMoves carry out, with `MoveCard`, the command a card drop issues; for a list drop, the lemmas beside it apply `MoveList` to the command's indices.
- BoardStore.DeleteList: order preservation of the kept lists is stated (BoardStore.WithoutAt) only when list ids are distinct. With duplicate ids the membership statement holds, but the order is not stated.
- Properties that pick out "the" list with an id (DeleteListAt, AddCardAt, the MoveCard lemmas, the drop lemmas) require distinct list ids. The types do not enforce that, and clock-based ids can collide within one millisecond; the clock is not modelled.

## Findings

| source | as written | input that shows it | evidently intended | confidence | as-written member | corrected member |
|---|---|---|---|---|---|---|
| components/Board.tsx:138-145 | the list branch takes `findIndex` of the target id among the lists without checking it was found, and reorders whenever the two indices differ | on the demo board, drag `list-1` and release it over `droppable-list-3` (Done's card area): the new index is -1, `moveList(0, -1)` runs, and `splice(-1, 0, …)` leaves In Progress, Todo, Done | a list released over anything that is not a list of the board stays where it is | medium, not executed | DragDrop.ListDropOnNonListMoves | DragDrop.DragEndIntended |
