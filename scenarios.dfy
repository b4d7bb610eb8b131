/**
 * Worked examples on the demo board: the store operations and the drag-end
 * handler applied to the board a first session starts from.
 */
module Scenarios {
  import opened Wrappers
  import opened Types
  import opened BoardStore
  import opened DragDrop
  import opened Storage
  import opened Splice

  /** Moving the first of two cards of the first list behind the single card of the second. */
  lemma MoveFirstCardAcross(b: Board, l1: List, l2: List, l3: List)
    requires b.lists == [l1, l2, l3] && UniqueListIds(b.lists)
    requires |l1.cards| == 2 && |l2.cards| == 1
    ensures MoveCard(b, l1.id, l2.id, 0, 1).lists
         == [l1.(cards := [l1.cards[1]]), l2.(cards := [l2.cards[0], l1.cards[0]]), l3]
  {
    var src := l1.(cards := RemoveAt(l1.cards, 0));
    var dst := l2.(cards := InsertAt(l2.cards, 1, l1.cards[0]));
    assert MoveCard(b, l1.id, l2.id, 0, 1).lists == b.lists[0 := src][1 := dst] by {
      TransferShape(b, 0, 1, 0, 1);
    }
    assert b.lists[0 := src][1 := dst] == [src, dst, l3];
    assert src.cards == [l1.cards[1]] by {
      RemoveFirstOfTwo(l1.cards);
    }
    assert dst.cards == [l2.cards[0], l1.cards[0]] by {
      InsertAfterOnly(l2.cards, l1.cards[0]);
    }
  }

  /**
   * Moving the first Todo card into In Progress at index 1 leaves Todo with
   * "Review Drag & Drop" and puts "Create interview Kanban" after "Set up
   * Next.js project"; Done is untouched.
   */
  lemma MoveCardOnDemoBoard(createdAt: string)
    ensures var b := DefaultBoard(createdAt);
      var r := MoveCard(b, "list-1", "list-2", 0, 1);
      && |r.lists| == 3 && r.lists[2] == b.lists[2]
      && r.lists[0].cards == [Card("card-2", "Review Drag & Drop", [])]
      && r.lists[1].cards == [b.lists[1].cards[0], Card("card-1", "Create interview Kanban", [])]
      && r.lists[1].cards[0].title == "Set up Next.js project"
  {
    var b := DefaultBoard(createdAt);
    assert UniqueListIds(b.lists);
    MoveFirstCardAcross(b, b.lists[0], b.lists[1], b.lists[2]);
  }

  lemma RemoveFirstOfTwo<T>(s: seq<T>)
    requires |s| == 2
    ensures RemoveAt(s, 0) == [s[1]]
  {
    assert RemoveAt(s, 0) == s[..0] + s[1..];
  }

  lemma InsertAfterOnly<T>(s: seq<T>, x: T)
    requires |s| == 1
    ensures InsertAt(s, 1, x) == [s[0], x]
  {
    assert InsertAt(s, 1, x) == s[..1] + [x] + s[1..];
  }

  /** `splice(-1, 0, …)` after removing the first of three puts it in the middle. */
  lemma MoveFirstOfThreeBack<T>(s: seq<T>)
    requires |s| == 3
    ensures Move(s, 0, -1) == [s[1], s[0], s[2]]
  {
    assert Move(s, 0, -1) == Move(s, 0, 1) by {
      MoveNormalised(s, 0, -1);
      assert StartIndex(2, -1) == 1;
    }
    MoveIsShift(s, 0, 1);
    var r := Shifted(s, 0, 1);
    assert r[0] == s[1] && r[1] == s[0] && r[2] == s[2];
    assert r == [s[1], s[0], s[2]];
  }

  /** Adding "Backlog" to the demo board appends a fourth, empty list after Done. */
  lemma AddListOnDemoBoard(createdAt: string, now: nat)
    ensures var b := DefaultBoard(createdAt);
      var r := AddList(b, "Backlog", now);
      && |r.lists| == 4 && r.lists[..3] == b.lists
      && r.lists[3].title == "Backlog" && r.lists[3].cards == []
  {
  }

  /** A three-list board whose first list is released over something that is not a list. */
  lemma FirstListDroppedOnNonList(b: Board, l1: List, l2: List, l3: List, active: Active, o: Over)
    requires b.lists == [l1, l2, l3] && UniqueListIds(b.lists)
    requires HasPrefix(active.id, "list-") && active.id == l1.id
    requires FindList(b.lists, o.id).None?
    ensures DragEnd(b, active, Some(o)) == Some(MoveListCmd(0, -1))
    ensures MoveList(b, 0, -1).lists == [l2, l1, l3]
    ensures DragEndIntended(b, active, Some(o)).None?
  {
    assert FindListIndex(b.lists, active.id) == Some(0) by {
      FindUnique(b.lists, 0);
    }
    MoveFirstOfThreeBack(b.lists);
  }

  /**
   * Dragging Todo and releasing it over the card area of Done reorders the
   * lists to In Progress, Todo, Done, though no list was the target; the
   * intended handler leaves the board alone.
   */
  lemma ListDroppedOnCardAreaOfDemoBoard(createdAt: string)
    ensures var b := DefaultBoard(createdAt);
      var active := Active("list-1", "", 0);
      var over := Some(Over("droppable-list-3", "list-3", 0));
      && DragEnd(b, active, over) == Some(MoveListCmd(0, -1))
      && MoveList(b, 0, -1).lists == [b.lists[1], b.lists[0], b.lists[2]]
      && DragEndIntended(b, active, over).None?
  {
    var b := DefaultBoard(createdAt);
    assert UniqueListIds(b.lists);
    assert FindList(b.lists, "droppable-list-3").None?;
    FirstListDroppedOnNonList(b, b.lists[0], b.lists[1], b.lists[2],
                              Active("list-1", "", 0), Over("droppable-list-3", "list-3", 0));
  }
}
