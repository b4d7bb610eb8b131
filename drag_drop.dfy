/**
 * The drag-end handler of components/Board.tsx (`handleDragEnd`): it turns the
 * dragged item and the drop target reported by the drag-and-drop library into
 * at most one store command. What is dragged or hit is told apart by the id's
 * prefix: "list-", "card-", or "droppable-" for the card area of a list.
 */
module DragDrop {
  import opened Wrappers
  import opened Types
  import opened Splice
  import opened BoardStore

  /**
   * The dragged item: its id and, for a card, the list id and index it was
   * rendered with (`active.data.current`). A dragged list carries no list id
   * or index; those fields are then never read.
   */
  datatype Active = Active(id: string, listId: string, index: int)

  /**
   * The drop target: its id and `over.data.current`. A card target carries its
   * list id and index, a droppable area its list id; a list target neither.
   */
  datatype Over = Over(id: string, listId: string, index: int)

  /** The store call a drop issues: `onMoveList` or `onMoveCard`. */
  datatype Command =
    | MoveListCmd(startIndex: int, endIndex: int)
    | MoveCardCmd(sourceListId: string, destinationListId: string, sourceIndex: int, destinationIndex: int)

  /** The three prefixes never overlap. */
  lemma PrefixesDisjoint(s: string)
    ensures !(HasPrefix(s, "list-") && HasPrefix(s, "card-"))
    ensures !(HasPrefix(s, "list-") && HasPrefix(s, "droppable-"))
    ensures !(HasPrefix(s, "card-") && HasPrefix(s, "droppable-"))
  {
  }

  /** `lists.findIndex(l => l.id === id)`: the first position with the id, or -1 when no list matches. */
  function IndexOrMinusOne(ls: seq<List>, id: string): (r: int)
    ensures -1 <= r < |ls|
    ensures r >= 0 ==> ls[r].id == id
    ensures r >= 0 ==> forall i :: 0 <= i < r ==> ls[i].id != id
    ensures r == -1 <==> forall i :: 0 <= i < |ls| ==> ls[i].id != id
  {
    match FindListIndex(ls, id)
    case Some(k) => k
    case None => -1
  }

  /** A list was dragged: reorder when the two positions found differ, as written. */
  function ListDrop(b: Board, active: Active, o: Over): (r: Option<Command>)
    ensures r.None? <==> IndexOrMinusOne(b.lists, active.id) == IndexOrMinusOne(b.lists, o.id)
    ensures r.Some? ==> && r.value.MoveListCmd?
                        && -1 <= r.value.startIndex < |b.lists| && -1 <= r.value.endIndex < |b.lists|
                        && (r.value.startIndex >= 0 ==> b.lists[r.value.startIndex].id == active.id)
                        && (r.value.endIndex >= 0 ==> b.lists[r.value.endIndex].id == o.id)
                        && (r.value.startIndex == -1 <==> forall i :: 0 <= i < |b.lists| ==> b.lists[i].id != active.id)
                        && (r.value.endIndex == -1 <==> forall i :: 0 <= i < |b.lists| ==> b.lists[i].id != o.id)
  {
    var oldIndex := IndexOrMinusOne(b.lists, active.id);
    var newIndex := IndexOrMinusOne(b.lists, o.id);
    if oldIndex != newIndex then Some(MoveListCmd(oldIndex, newIndex)) else None
  }

  /** A list was dragged: reorder only when both the dragged list and the target are lists of the board. */
  function ListDropIntended(b: Board, active: Active, o: Over): (r: Option<Command>)
    ensures r.Some? ==> && r.value.MoveListCmd?
                        && 0 <= r.value.startIndex < |b.lists|
                        && 0 <= r.value.endIndex < |b.lists|
                        && b.lists[r.value.startIndex].id == active.id
                        && b.lists[r.value.endIndex].id == o.id
  {
    var oldIndex := IndexOrMinusOne(b.lists, active.id);
    var newIndex := IndexOrMinusOne(b.lists, o.id);
    if 0 <= oldIndex && 0 <= newIndex && oldIndex != newIndex then Some(MoveListCmd(oldIndex, newIndex)) else None
  }

  /** The final guard: a card move is issued only when it would move something. */
  function EmitCardMove(sourceListId: string, destinationListId: string, sourceIndex: int, destinationIndex: int): (r: Option<Command>)
    ensures r.Some? <==> sourceListId != destinationListId || sourceIndex != destinationIndex
    ensures r.Some? ==> r.value == MoveCardCmd(sourceListId, destinationListId, sourceIndex, destinationIndex)
  {
    if sourceListId != destinationListId || sourceIndex != destinationIndex
    then Some(MoveCardCmd(sourceListId, destinationListId, sourceIndex, destinationIndex))
    else None
  }

  /** The list a drop on a list or on its droppable area targets. */
  function DropTargetListId(o: Over): string {
    if HasPrefix(o.id, "droppable-") then o.listId else o.id
  }

  /** A card was dragged: compute the destination list and index from the target. */
  function CardDrop(b: Board, active: Active, o: Over): (r: Option<Command>)
    ensures HasPrefix(o.id, "card-") && o.listId == active.listId ==>
      r == if o.index == active.index then None
           else Some(MoveCardCmd(active.listId, active.listId, active.index, o.index))
    ensures HasPrefix(o.id, "card-") && o.listId != active.listId ==>
      r == Some(MoveCardCmd(active.listId, o.listId, active.index, o.index + 1))
    ensures (HasPrefix(o.id, "list-") || HasPrefix(o.id, "droppable-"))
            && FindList(b.lists, DropTargetListId(o)).None? ==>
      r == EmitCardMove(active.listId, DropTargetListId(o), active.index, 0)
    ensures (HasPrefix(o.id, "list-") || HasPrefix(o.id, "droppable-"))
            && FindList(b.lists, DropTargetListId(o)).Some? ==>
      r == EmitCardMove(active.listId, DropTargetListId(o), active.index,
                        |FindList(b.lists, DropTargetListId(o)).value.cards|)
    ensures !HasPrefix(o.id, "card-") && !HasPrefix(o.id, "list-") && !HasPrefix(o.id, "droppable-") ==>
      r.None?
  {
    PrefixesDisjoint(o.id);
    var sourceListId := active.listId;
    var sourceIndex := active.index;
    if HasPrefix(o.id, "card-") then
      var destinationListId := o.listId;
      var overIndex := o.index;
      if sourceListId == destinationListId then
        if sourceIndex < overIndex then EmitCardMove(sourceListId, destinationListId, sourceIndex, overIndex)
        else if sourceIndex > overIndex then EmitCardMove(sourceListId, destinationListId, sourceIndex, overIndex)
        else None
      else EmitCardMove(sourceListId, destinationListId, sourceIndex, overIndex + 1)
    else if HasPrefix(o.id, "list-") || HasPrefix(o.id, "droppable-") then
      var destinationListId := DropTargetListId(o);
      var destinationIndex := match FindList(b.lists, destinationListId)
                              case Some(l) => |l.cards|
                              case None => 0;
      EmitCardMove(sourceListId, destinationListId, sourceIndex, destinationIndex)
    else None
  }

  /** `handleDragEnd` as written. */
  function DragEnd(b: Board, active: Active, over: Option<Over>): (r: Option<Command>)
    ensures over.None? ==> r.None?
    ensures r.Some? && r.value.MoveListCmd? ==>
      HasPrefix(active.id, "list-") && r.value.startIndex != r.value.endIndex
    ensures r.Some? && r.value.MoveCardCmd? ==>
      && HasPrefix(active.id, "card-")
      && r.value.sourceListId == active.listId && r.value.sourceIndex == active.index
      && (r.value.sourceListId != r.value.destinationListId || r.value.sourceIndex != r.value.destinationIndex)
    ensures over.Some? && HasPrefix(active.id, "list-") ==> r == ListDrop(b, active, over.value)
    ensures over.Some? && HasPrefix(active.id, "card-") ==> r == CardDrop(b, active, over.value)
    ensures over.Some? && !HasPrefix(active.id, "list-") && !HasPrefix(active.id, "card-") ==> r.None?
  {
    match over
    case None => None
    case Some(o) =>
      PrefixesDisjoint(active.id);
      if HasPrefix(active.id, "list-") then ListDrop(b, active, o)
      else if HasPrefix(active.id, "card-") then CardDrop(b, active, o)
      else None
  }

  /** `handleDragEnd` with list reorders restricted to lists found on the board. */
  function DragEndIntended(b: Board, active: Active, over: Option<Over>): (r: Option<Command>)
    ensures over.None? ==> r.None?
    ensures r.Some? && r.value.MoveListCmd? ==>
      && HasPrefix(active.id, "list-")
      && 0 <= r.value.startIndex < |b.lists| && 0 <= r.value.endIndex < |b.lists|
      && r.value.startIndex != r.value.endIndex
    ensures !HasPrefix(active.id, "list-") ==> r == DragEnd(b, active, over)
  {
    match over
    case None => None
    case Some(o) =>
      PrefixesDisjoint(active.id);
      if HasPrefix(active.id, "list-") then ListDropIntended(b, active, o)
      else if HasPrefix(active.id, "card-") then CardDrop(b, active, o)
      else None
  }

  // ---------------------------------------------------------------- drop, then move

  /**
   * A card dropped on another card of its own list is sent to the target's
   * index, whichever way it travels (what the move then does is
   * BoardStore.MoveCardOnto).
   */
  lemma DropCardOnCardSameList(b: Board, k: nat, active: Active, o: Over)
    requires k < |b.lists|
    requires HasPrefix(active.id, "card-") && active.listId == b.lists[k].id
    requires HasPrefix(o.id, "card-") && o.listId == b.lists[k].id
    requires o.index != active.index
    ensures DragEnd(b, active, Some(o)) == Some(MoveCardCmd(b.lists[k].id, b.lists[k].id, active.index, o.index))
  {
    PrefixesDisjoint(active.id);
    PrefixesDisjoint(o.id);
    assert CardDrop(b, active, o) == EmitCardMove(active.listId, o.listId, active.index, o.index);
  }

  /**
   * A card dropped on a card of another list is sent just after the target
   * (what the move then does is BoardStore.MoveCardAfter).
   */
  lemma DropCardOnCardOtherList(b: Board, k: nat, m: nat, active: Active, o: Over)
    requires UniqueListIds(b.lists) && k < |b.lists| && m < |b.lists| && k != m
    requires HasPrefix(active.id, "card-") && active.listId == b.lists[k].id
    requires HasPrefix(o.id, "card-") && o.listId == b.lists[m].id
    ensures DragEnd(b, active, Some(o)) == Some(MoveCardCmd(b.lists[k].id, b.lists[m].id, active.index, o.index + 1))
  {
    PrefixesDisjoint(active.id);
    PrefixesDisjoint(o.id);
    assert b.lists[k].id != b.lists[m].id;
    assert CardDrop(b, active, o) == EmitCardMove(active.listId, o.listId, active.index, o.index + 1);
  }

  /**
   * A card dropped on a list, or on a list's card area, is sent to the end of
   * that list, its own list included (what the move then does is
   * BoardStore.MoveCardToEnd).
   */
  lemma DropCardOnList(b: Board, k: nat, m: nat, active: Active, o: Over)
    requires UniqueListIds(b.lists) && k < |b.lists| && m < |b.lists|
    requires HasPrefix(active.id, "card-") && active.listId == b.lists[k].id
    requires 0 <= active.index < |b.lists[k].cards|
    requires HasPrefix(o.id, "list-") || HasPrefix(o.id, "droppable-")
    requires DropTargetListId(o) == b.lists[m].id
    ensures DragEnd(b, active, Some(o))
         == Some(MoveCardCmd(b.lists[k].id, b.lists[m].id, active.index, |b.lists[m].cards|))
  {
    ListTargetCommand(b, m, active, o);
    PrefixesDisjoint(active.id);
  }

  /** A card dropped on itself (same list, same index) issues nothing. */
  lemma DropCardOnOwnPosition(b: Board, active: Active, o: Over)
    requires HasPrefix(active.id, "card-") && HasPrefix(o.id, "card-")
    requires o.listId == active.listId && o.index == active.index
    ensures DragEnd(b, active, Some(o)).None?
  {
    PrefixesDisjoint(active.id);
  }

  /** A card dropped on something that is neither a card, a list nor a card area issues nothing. */
  lemma DropCardOnOtherTarget(b: Board, active: Active, o: Over)
    requires HasPrefix(active.id, "card-")
    requires !HasPrefix(o.id, "card-") && !HasPrefix(o.id, "list-") && !HasPrefix(o.id, "droppable-")
    ensures DragEnd(b, active, Some(o)).None?
  {
    PrefixesDisjoint(active.id);
  }

  /**
   * A card dropped on a list, or a card area, whose list is not on the board
   * is sent to index 0 of that missing list.
   */
  lemma DropCardOnMissingList(b: Board, active: Active, o: Over)
    requires HasPrefix(active.id, "card-")
    requires HasPrefix(o.id, "list-") || HasPrefix(o.id, "droppable-")
    requires FindList(b.lists, DropTargetListId(o)).None?
    ensures DragEnd(b, active, Some(o)) == EmitCardMove(active.listId, DropTargetListId(o), active.index, 0)
    ensures active.listId != DropTargetListId(o) ==>
      DragEnd(b, active, Some(o)) == Some(MoveCardCmd(active.listId, DropTargetListId(o), active.index, 0))
  {
    PrefixesDisjoint(active.id);
  }

  /** The command issued when a card is dropped on a list or on a list's card area. */
  lemma ListTargetCommand(b: Board, m: nat, active: Active, o: Over)
    requires UniqueListIds(b.lists) && m < |b.lists|
    requires HasPrefix(active.id, "card-")
    requires HasPrefix(o.id, "list-") || HasPrefix(o.id, "droppable-")
    requires DropTargetListId(o) == b.lists[m].id
    ensures CardDrop(b, active, o) == EmitCardMove(active.listId, b.lists[m].id, active.index, |b.lists[m].cards|)
  {
    PrefixesDisjoint(active.id);
    PrefixesDisjoint(o.id);
    FindUnique(b.lists, m);
  }

  // ---------------------------------------------------------------- drop, then move: the effect on the board

  /** The board after `onMoveCard` carries out an issued card move. */
  function CardMoveApplied(b: Board, d: Option<Command>): Board
    requires d.Some? && d.value.MoveCardCmd?
  {
    MoveCard(b, d.value.sourceListId, d.value.destinationListId, d.value.sourceIndex, d.value.destinationIndex)
  }

  /** Carrying out a move onto another card's position within list k. */
  lemma SameListEffect(b: Board, k: nat, i: nat, j: nat, d: Option<Command>)
    requires UniqueListIds(b.lists) && k < |b.lists|
    requires i < |b.lists[k].cards| && j < |b.lists[k].cards| && i != j
    requires d == Some(MoveCardCmd(b.lists[k].id, b.lists[k].id, i, j))
    ensures var cards := b.lists[k].cards;
      var moved := Move(cards, i, j);
      && CardMoveApplied(b, d) == b.(lists := b.lists[k := b.lists[k].(cards := moved)])
      && moved[j] == cards[i]
      && moved[if i < j then j - 1 else j + 1] == cards[j]
  {
    MoveCardOnto(b, k, i, j);
  }

  /** Carrying out a move from list k to just after card j of list m. */
  lemma OtherListEffect(b: Board, k: nat, m: nat, i: nat, j: nat, d: Option<Command>)
    requires UniqueListIds(b.lists) && k < |b.lists| && m < |b.lists| && k != m
    requires i < |b.lists[k].cards| && j < |b.lists[m].cards|
    requires d == Some(MoveCardCmd(b.lists[k].id, b.lists[m].id, i, j + 1))
    ensures var r := CardMoveApplied(b, d);
      && |r.lists| == |b.lists| && |r.lists[m].cards| == |b.lists[m].cards| + 1
      && r.lists[m].cards[j] == b.lists[m].cards[j]
      && r.lists[m].cards[j + 1] == b.lists[k].cards[i]
      && multiset(AllCards(r.lists)) == multiset(AllCards(b.lists))
  {
    MoveCardAfter(b, k, m, i, j);
    MoveCardAcross(b, k, m, i, j + 1);
  }

  /** Carrying out a move from list k to the end of list m. */
  lemma ToEndEffect(b: Board, k: nat, m: nat, i: nat, d: Option<Command>)
    requires UniqueListIds(b.lists) && k < |b.lists| && m < |b.lists|
    requires i < |b.lists[k].cards|
    requires d == Some(MoveCardCmd(b.lists[k].id, b.lists[m].id, i, |b.lists[m].cards|))
    ensures var r := CardMoveApplied(b, d);
      && |r.lists| == |b.lists| && |r.lists[m].cards| > 0
      && r.lists[m].cards[|r.lists[m].cards| - 1] == b.lists[k].cards[i]
      && multiset(AllCards(r.lists)) == multiset(AllCards(b.lists))
  {
    MoveCardToEnd(b, k, m, i);
  }

  /**
   * Dropping a card on another card of its own list and carrying out the
   * issued move: the list's cards become the move, no other list changes,
   * the card takes the target's slot and the target steps towards the
   * vacated one.
   */
  lemma DropCardOnCardSameListMoves(b: Board, k: nat, active: Active, o: Over)
    requires UniqueListIds(b.lists) && k < |b.lists|
    requires HasPrefix(active.id, "card-") && active.listId == b.lists[k].id
    requires 0 <= active.index < |b.lists[k].cards|
    requires HasPrefix(o.id, "card-") && o.listId == b.lists[k].id
    requires 0 <= o.index < |b.lists[k].cards| && o.index != active.index
    ensures DragEnd(b, active, Some(o)).Some? && DragEnd(b, active, Some(o)).value.MoveCardCmd?
    ensures var cards := b.lists[k].cards;
      var moved := Move(cards, active.index, o.index);
      && CardMoveApplied(b, DragEnd(b, active, Some(o))) == b.(lists := b.lists[k := b.lists[k].(cards := moved)])
      && moved[o.index] == cards[active.index]
      && moved[if active.index < o.index then o.index - 1 else o.index + 1] == cards[o.index]
  {
    DropCardOnCardSameList(b, k, active, o);
    SameListEffect(b, k, active.index, o.index, DragEnd(b, active, Some(o)));
  }

  /**
   * Dropping a card on a card of another list and carrying out the issued
   * move: the card lands right after the target, which stays in place, and
   * the board keeps its cards.
   */
  lemma DropCardOnCardOtherListMoves(b: Board, k: nat, m: nat, active: Active, o: Over)
    requires UniqueListIds(b.lists) && k < |b.lists| && m < |b.lists| && k != m
    requires HasPrefix(active.id, "card-") && active.listId == b.lists[k].id
    requires 0 <= active.index < |b.lists[k].cards|
    requires HasPrefix(o.id, "card-") && o.listId == b.lists[m].id
    requires 0 <= o.index < |b.lists[m].cards|
    ensures DragEnd(b, active, Some(o)).Some? && DragEnd(b, active, Some(o)).value.MoveCardCmd?
    ensures var r := CardMoveApplied(b, DragEnd(b, active, Some(o)));
      && |r.lists| == |b.lists| && |r.lists[m].cards| == |b.lists[m].cards| + 1
      && r.lists[m].cards[o.index] == b.lists[m].cards[o.index]
      && r.lists[m].cards[o.index + 1] == b.lists[k].cards[active.index]
      && multiset(AllCards(r.lists)) == multiset(AllCards(b.lists))
  {
    DropCardOnCardOtherList(b, k, m, active, o);
    OtherListEffect(b, k, m, active.index, o.index, DragEnd(b, active, Some(o)));
  }

  /**
   * Dropping a card on a list or its card area and carrying out the issued
   * move: the card ends last in that list, its own list included, and the
   * board keeps its cards.
   */
  lemma DropCardOnListMoves(b: Board, k: nat, m: nat, active: Active, o: Over)
    requires UniqueListIds(b.lists) && k < |b.lists| && m < |b.lists|
    requires HasPrefix(active.id, "card-") && active.listId == b.lists[k].id
    requires 0 <= active.index < |b.lists[k].cards|
    requires HasPrefix(o.id, "list-") || HasPrefix(o.id, "droppable-")
    requires DropTargetListId(o) == b.lists[m].id
    ensures DragEnd(b, active, Some(o)).Some? && DragEnd(b, active, Some(o)).value.MoveCardCmd?
    ensures var r := CardMoveApplied(b, DragEnd(b, active, Some(o)));
      && |r.lists| == |b.lists| && |r.lists[m].cards| > 0
      && r.lists[m].cards[|r.lists[m].cards| - 1] == b.lists[k].cards[active.index]
      && multiset(AllCards(r.lists)) == multiset(AllCards(b.lists))
  {
    DropCardOnList(b, k, m, active, o);
    ToEndEffect(b, k, m, active.index, DragEnd(b, active, Some(o)));
  }

  /**
   * A list dropped on another list of the board takes that list's position;
   * dropped on itself, nothing is issued. Here the written handler and the
   * intended one agree.
   */
  lemma DropListOnList(b: Board, k: nat, m: nat, active: Active, o: Over)
    requires UniqueListIds(b.lists) && k < |b.lists| && m < |b.lists|
    requires HasPrefix(active.id, "list-") && active.id == b.lists[k].id
    requires o.id == b.lists[m].id
    ensures DragEnd(b, active, Some(o)) == DragEndIntended(b, active, Some(o))
    ensures k == m ==> DragEnd(b, active, Some(o)).None?
    ensures k != m ==> DragEnd(b, active, Some(o)) == Some(MoveListCmd(k, m))
    ensures k != m ==> MoveList(b, k, m).lists[m] == b.lists[k]
  {
    FindUnique(b.lists, k);
    FindUnique(b.lists, m);
  }

  /**
   * As written, a list dropped on a target that is not a list of the board (a
   * card, or a list's card area) yields `moveList(oldIndex, -1)`, and
   * `splice(-1, 0, …)` then puts the list second to last. The intended handler
   * issues nothing.
   */
  lemma ListDropOnNonListMoves(b: Board, k: nat, active: Active, o: Over)
    requires k < |b.lists| && HasPrefix(active.id, "list-") && active.id == b.lists[k].id
    requires FindList(b.lists, o.id).None?
    ensures DragEnd(b, active, Some(o)) == Some(MoveListCmd(IndexOrMinusOne(b.lists, active.id), -1))
    ensures IndexOrMinusOne(b.lists, active.id) <= k
    ensures |b.lists| >= 2 ==> MoveList(b, IndexOrMinusOne(b.lists, active.id), -1).lists[|b.lists| - 2]
                               == b.lists[IndexOrMinusOne(b.lists, active.id)]
    ensures DragEndIntended(b, active, Some(o)).None?
  {
  }
}
