/**
 * Board bootstrap of services/storage.service.ts: the board read back from
 * local storage when there is one, otherwise the fixed demo board. The storage
 * read is the parameter `stored`; `createdAt` is the local time rendered when
 * the demo board is built, stamped on its one seed comment.
 */
module Storage {
  import opened Wrappers
  import opened Types

  /** The demo board shown on first use. */
  function DefaultBoard(createdAt: string): Board {
    Board("board-1", "Demo Board", [
      List("list-1", "Todo", [
        Card("card-1", "Create interview Kanban", []),
        Card("card-2", "Review Drag & Drop", [])
      ]),
      List("list-2", "In Progress", [
        Card("card-3", "Set up Next.js project", [Comment("comment-1", "aaa", "You", createdAt)])
      ]),
      List("list-3", "Done", [])
    ])
  }

  /** The board a session starts from: the stored one when present, else the demo board. */
  function GetInitialBoard(stored: Option<Board>, createdAt: string): (r: Board)
    ensures stored.Some? ==> r == stored.value
    ensures stored.None? ==> r == DefaultBoard(createdAt)
    ensures stored.None? ==> && r.id == "board-1" && r.title == "Demo Board"
                             && |r.lists| == 3 && UniqueListIds(r.lists)
                             && |AllCards(r.lists)| == 3
  {
    match stored
    case Some(board) => board
    case None =>
      DefaultBoardIds(createdAt);
      DefaultBoard(createdAt)
  }

  /** Card ids of the whole board are pairwise distinct. */
  predicate UniqueCardIds(ls: seq<List>) {
    var cards := AllCards(ls);
    forall i, j :: 0 <= i < j < |cards| ==> cards[i].id != cards[j].id
  }

  /**
   * The demo board, list by list: Todo holds two cards without comments, In
   * Progress one card with the single seed comment by 'You', Done nothing.
   */
  lemma DefaultBoardContents(createdAt: string)
    ensures var b := DefaultBoard(createdAt);
      && b.id == "board-1" && b.title == "Demo Board" && |b.lists| == 3
      && b.lists[0].id == "list-1" && b.lists[0].title == "Todo"
      && b.lists[1].id == "list-2" && b.lists[1].title == "In Progress"
      && b.lists[2].id == "list-3" && b.lists[2].title == "Done"
      && b.lists[0].cards == [Card("card-1", "Create interview Kanban", []), Card("card-2", "Review Drag & Drop", [])]
      && |b.lists[1].cards| == 1
      && b.lists[1].cards[0].id == "card-3" && b.lists[1].cards[0].title == "Set up Next.js project"
      && b.lists[2].cards == []
  {
  }

  /** The seed comment: the only comment of the demo board, by 'You', reading "aaa". */
  lemma DefaultBoardComment(createdAt: string)
    ensures var c := DefaultBoard(createdAt).lists[1].cards[0];
      && |c.comments| == 1
      && c.comments[0].id == "comment-1" && c.comments[0].content == "aaa" && c.comments[0].author == "You"
    ensures var b := DefaultBoard(createdAt);
      b.lists[0].cards[0].comments == [] && b.lists[0].cards[1].comments == []
  {
  }

  /** The demo board's cards, board-wide in list order: the two Todo cards, then the In Progress one. */
  lemma DefaultBoardCards(createdAt: string)
    ensures AllCards(DefaultBoard(createdAt).lists)
         == [Card("card-1", "Create interview Kanban", []),
             Card("card-2", "Review Drag & Drop", []),
             Card("card-3", "Set up Next.js project", [Comment("comment-1", "aaa", "You", createdAt)])]
  {
    var ls := DefaultBoard(createdAt).lists;
    var l1, l2, l3 := ls[0], ls[1], ls[2];
    assert AllCards([l3]) == [] by {
      AllCardsCons(l3, []);
    }
    assert AllCards([l2, l3]) == l2.cards by {
      AllCardsCons(l2, [l3]);
      assert [l2, l3] == [l2] + [l3];
    }
    assert AllCards(ls) == l1.cards + l2.cards by {
      AllCardsCons(l1, [l2, l3]);
      assert ls == [l1] + [l2, l3];
    }
  }

  /**
   * Every list id of the demo board starts with "list-" and every card id with
   * "card-", so each can be dragged; no two lists and no two cards share an id.
   */
  lemma DefaultBoardIds(createdAt: string)
    ensures var b := DefaultBoard(createdAt);
      && UniqueListIds(b.lists) && UniqueCardIds(b.lists)
      && (forall i :: 0 <= i < |b.lists| ==> HasPrefix(b.lists[i].id, "list-"))
      && (forall c :: c in AllCards(b.lists) ==> HasPrefix(c.id, "card-"))
      && |AllCards(b.lists)| == 3
  {
    var b := DefaultBoard(createdAt);
    assert HasPrefix(b.lists[0].id, "list-") && HasPrefix(b.lists[1].id, "list-") && HasPrefix(b.lists[2].id, "list-");
    assert UniqueListIds(b.lists);
    DefaultBoardCards(createdAt);
    var cards := AllCards(b.lists);
    assert UniqueCardIds(b.lists);
    assert HasPrefix(cards[0].id, "card-") && HasPrefix(cards[1].id, "card-") && HasPrefix(cards[2].id, "card-");
    assert forall c :: c in cards ==> c == cards[0] || c == cards[1] || c == cards[2];
  }
}
