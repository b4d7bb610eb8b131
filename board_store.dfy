/**
 * The board store of hooks/useBoard.ts: every operation takes the previous
 * board snapshot and returns the next one. The clock is a parameter: `now` is
 * the value of `Date.now()` from which new ids are made, and `createdAt` the
 * rendered local time stamped on a new comment.
 */
module BoardStore {
  import opened Types
  import opened Splice
  import opened Wrappers

  /** A decimal digit character. */
  function Digit(d: nat): (c: char)
    requires d < 10
    ensures '0' <= c <= '9' && c as int - '0' as int == d
  {
    ('0' as int + d) as char
  }

  /** Every character is a decimal digit. */
  predicate IsDigits(s: string) {
    forall i :: 0 <= i < |s| ==> '0' <= s[i] <= '9'
  }

  /** The number a string of decimal digits denotes, most significant digit first. */
  function DigitsValue(s: string): nat
    requires IsDigits(s)
  {
    if s == [] then 0
    else
      DigitsValue(s[..|s| - 1]) * 10 + (s[|s| - 1] as int - '0' as int)
  }

  /** The decimal rendering of a natural number, as a template literal prints it. */
  function Decimal(n: nat): (r: string)
    ensures |r| >= 1 && IsDigits(r)
    ensures r[0] == '0' ==> n == 0
  {
    if n < 10 then [Digit(n)] else Decimal(n / 10) + [Digit(n % 10)]
  }

  /** The rendering denotes the number it renders. */
  lemma {:induction false} DecimalValue(n: nat)
    ensures DigitsValue(Decimal(n)) == n
  {
    if n >= 10 {
      DecimalValue(n / 10);
      var s := Decimal(n);
      assert s[..|s| - 1] == Decimal(n / 10);
      assert s[|s| - 1] == Digit(n % 10);
    }
  }

  /** A generated id, `${prefix}${Date.now()}`: the prefix followed by at least one digit and nothing else. */
  function PrefixedId(prefix: string, now: nat): (id: string)
    ensures HasPrefix(id, prefix) && |id| > |prefix|
    ensures IsDigits(id[|prefix|..])
    ensures DigitsValue(id[|prefix|..]) == now
    ensures id[|prefix|] == '0' ==> now == 0
  {
    assert (prefix + Decimal(now))[|prefix|..] == Decimal(now);
    DecimalValue(now);
    prefix + Decimal(now)
  }

  // ---------------------------------------------------------------- board title

  /** Rename the board; lists and id are kept. */
  function UpdateBoardTitle(b: Board, title: string): (r: Board)
    ensures r.title == title && r.id == b.id && r.lists == b.lists
  {
    b.(title := title)
  }

  /** Renaming twice is renaming once with the last title; renaming to the current title is a no-op. */
  lemma UpdateBoardTitleLastWins(b: Board, t1: string, t2: string)
    ensures UpdateBoardTitle(UpdateBoardTitle(b, t1), t2) == UpdateBoardTitle(b, t2)
    ensures UpdateBoardTitle(b, b.title) == b
  {
  }

  // ---------------------------------------------------------------- lists

  /** Append a new list with no cards at the end of the board. */
  function AddList(b: Board, title: string, now: nat): (r: Board)
    ensures r.id == b.id && r.title == b.title
    ensures |r.lists| == |b.lists| + 1
    ensures forall i :: 0 <= i < |b.lists| ==> r.lists[i] == b.lists[i]
    ensures r.lists[|b.lists|].title == title && r.lists[|b.lists|].cards == []
    ensures HasPrefix(r.lists[|b.lists|].id, "list-") && r.lists[|b.lists|].id == PrefixedId("list-", now)
    ensures AllCards(r.lists) == AllCards(b.lists)
  {
    var added := List(PrefixedId("list-", now), title, []);
    AllCardsAppend(b.lists, [added]);
    assert AllCards([added]) == [];
    b.(lists := b.lists + [added])
  }

  function RetitleList(l: List, listId: string, title: string): List {
    if l.id == listId then l.(title := title) else l
  }

  /** Rename every list whose id matches; nothing else changes. */
  function UpdateListTitle(b: Board, listId: string, title: string): (r: Board)
    ensures r.id == b.id && r.title == b.title && |r.lists| == |b.lists|
    ensures forall i :: 0 <= i < |b.lists| ==>
      && r.lists[i].id == b.lists[i].id
      && r.lists[i].cards == b.lists[i].cards
      && r.lists[i].title == (if b.lists[i].id == listId then title else b.lists[i].title)
    ensures AllCards(r.lists) == AllCards(b.lists)
  {
    var ls := seq(|b.lists|, i requires 0 <= i < |b.lists| => RetitleList(b.lists[i], listId, title));
    AllCardsSameCards(ls, b.lists);
    b.(lists := ls)
  }

  /** A rename of a list that does not exist leaves the board as it was. */
  lemma UpdateListTitleNoMatch(b: Board, listId: string, title: string)
    requires FindList(b.lists, listId).None?
    ensures UpdateListTitle(b, listId, title) == b
  {
    var r := UpdateListTitle(b, listId, title);
    assert r.lists == b.lists;
  }

  /** After a rename, looking the list up by its id finds the new title and the old cards. */
  lemma UpdateListTitleFound(b: Board, k: nat, title: string)
    requires UniqueListIds(b.lists) && k < |b.lists|
    ensures FindList(UpdateListTitle(b, b.lists[k].id, title).lists, b.lists[k].id)
         == Some(b.lists[k].(title := title))
  {
    var r := UpdateListTitle(b, b.lists[k].id, title);
    assert UniqueListIds(r.lists);
    FindUnique(r.lists, k);
  }

  /** `lists.filter(l => l.id !== listId)` */
  function WithoutList(ls: seq<List>, listId: string): (r: seq<List>)
    ensures |r| <= |ls|
  {
    if ls == [] then []
    else if ls[0].id == listId then WithoutList(ls[1..], listId)
    else [ls[0]] + WithoutList(ls[1..], listId)
  }

  /** The filter keeps exactly the lists whose id differs. */
  lemma {:induction false} WithoutListMembers(ls: seq<List>, listId: string)
    ensures forall l :: l in WithoutList(ls, listId) <==> l in ls && l.id != listId
  {
    if ls != [] {
      WithoutListMembers(ls[1..], listId);
      assert ls == [ls[0]] + ls[1..];
    }
  }

  /** Delete every list whose id matches, with all its cards. */
  function DeleteList(b: Board, listId: string): (r: Board)
    ensures r.id == b.id && r.title == b.title
    ensures forall l :: l in r.lists <==> l in b.lists && l.id != listId
  {
    WithoutListMembers(b.lists, listId);
    b.(lists := WithoutList(b.lists, listId))
  }

  lemma {:induction false} WithoutAbsent(ls: seq<List>, listId: string)
    requires forall i :: 0 <= i < |ls| ==> ls[i].id != listId
    ensures WithoutList(ls, listId) == ls
  {
    if ls != [] {
      WithoutAbsent(ls[1..], listId);
      assert [ls[0]] + ls[1..] == ls;
    }
  }

  /** With distinct ids, the filter removes exactly the list at position k and keeps the rest in order. */
  lemma {:induction false} WithoutAt(ls: seq<List>, k: nat)
    requires UniqueListIds(ls) && k < |ls|
    ensures WithoutList(ls, ls[k].id) == ls[..k] + ls[k + 1..]
  {
    var id := ls[k].id;
    var rest := ls[1..];
    if k == 0 {
      assert forall i :: 0 <= i < |rest| ==> rest[i].id != id;
      WithoutAbsent(rest, id);
      assert WithoutList(ls, id) == WithoutList(rest, id);
    } else {
      assert UniqueListIds(rest);
      assert rest[k - 1] == ls[k];
      WithoutAt(rest, k - 1);
      assert ls[0].id != id;
      assert WithoutList(ls, id) == [ls[0]] + WithoutList(rest, id);
      assert rest[..k - 1] == ls[1..k];
      assert rest[k..] == ls[k + 1..];
      assert [ls[0]] + ls[1..k] == ls[..k];
    }
  }

  /** Deleting a list that does not exist leaves the board as it was. */
  lemma DeleteListNoMatch(b: Board, listId: string)
    requires FindList(b.lists, listId).None?
    ensures DeleteList(b, listId) == b
  {
    WithoutAbsent(b.lists, listId);
  }

  /**
   * Deleting the list at position k keeps every other list in its order and
   * discards exactly that list's cards.
   */
  lemma DeleteListAt(b: Board, k: nat)
    requires UniqueListIds(b.lists) && k < |b.lists|
    ensures DeleteList(b, b.lists[k].id).lists == b.lists[..k] + b.lists[k + 1..]
    ensures multiset(AllCards(DeleteList(b, b.lists[k].id).lists))
         == multiset(AllCards(b.lists)) - multiset(b.lists[k].cards)
    ensures |AllCards(DeleteList(b, b.lists[k].id).lists)| == |AllCards(b.lists)| - |b.lists[k].cards|
  {
    var ls := b.lists;
    WithoutAt(ls, k);
    AllCardsSplit(ls, k);
    AllCardsAppend(ls[..k], ls[k + 1..]);
  }

  /** Move the list at startIndex to endIndex (two splices on a copy of the lists). */
  function MoveList(b: Board, startIndex: int, endIndex: int): (r: Board)
    requires 0 <= startIndex < |b.lists|
    ensures r.id == b.id && r.title == b.title
    ensures |r.lists| == |b.lists| && multiset(r.lists) == multiset(b.lists)
    ensures r.lists[StartIndex(|b.lists| - 1, endIndex)] == b.lists[startIndex]
  {
    b.(lists := Move(b.lists, startIndex, endIndex))
  }

  /** For positions on the board, moving a list back undoes the move. */
  lemma MoveListRoundTrip(b: Board, i: nat, j: nat)
    requires i < |b.lists| && j < |b.lists|
    ensures MoveList(MoveList(b, i, j), j, i) == b
  {
    MoveRoundTrip(b.lists, i, j);
  }

  /** Moving a list onto its own position changes nothing. */
  lemma MoveListInPlace(b: Board, i: nat)
    requires i < |b.lists|
    ensures MoveList(b, i, i) == b
  {
    MoveInPlace(b.lists, i);
  }

  /** Removing a list removes its cards from the board. */
  lemma AllCardsRemoveAt(s: seq<List>, i: nat)
    requires i < |s|
    ensures multiset(AllCards(s)) == multiset(AllCards(RemoveAt(s, i))) + multiset(s[i].cards)
  {
    AllCardsSplit(s, i);
    assert RemoveAt(s, i) == s[..i] + s[i + 1..];
    AllCardsAppend(s[..i], s[i + 1..]);
  }

  /** Inserting a list adds its cards to the board. */
  lemma AllCardsInsertAt(t: seq<List>, j: int, l: List)
    ensures multiset(AllCards(InsertAt(t, j, l))) == multiset(AllCards(t)) + multiset(l.cards)
  {
    var a := StartIndex(|t|, j);
    assert InsertAt(t, j, l) == t[..a] + [l] + t[a..];
    assert t == t[..a] + t[a..];
    AllCardsAppend(t[..a], t[a..]);
    AllCardsAppend(t[..a] + [l], t[a..]);
    AllCardsAppend(t[..a], [l]);
    assert AllCards([l]) == l.cards;
  }

  /** Reordering lists carries every card along: the board's cards are the same multiset. */
  lemma MoveListKeepsCards(b: Board, i: nat, j: int)
    requires i < |b.lists|
    ensures multiset(AllCards(MoveList(b, i, j).lists)) == multiset(AllCards(b.lists))
  {
    AllCardsRemoveAt(b.lists, i);
    AllCardsInsertAt(RemoveAt(b.lists, i), j, b.lists[i]);
  }

  // ---------------------------------------------------------------- cards

  function AppendCard(l: List, listId: string, card: Card): List {
    if l.id == listId then l.(cards := l.cards + [card]) else l
  }

  /** Append a new card with no comments to the end of every list whose id matches. */
  function AddCard(b: Board, listId: string, title: string, now: nat): (r: Board)
    ensures r.id == b.id && r.title == b.title && |r.lists| == |b.lists|
    ensures forall i :: 0 <= i < |b.lists| ==>
      && r.lists[i].id == b.lists[i].id
      && r.lists[i].title == b.lists[i].title
      && r.lists[i].cards == if b.lists[i].id == listId
                             then b.lists[i].cards + [Card(PrefixedId("card-", now), title, [])]
                             else b.lists[i].cards
  {
    var card := Card(PrefixedId("card-", now), title, []);
    b.(lists := seq(|b.lists|, i requires 0 <= i < |b.lists| => AppendCard(b.lists[i], listId, card)))
  }

  /** Adding a card to a list that does not exist leaves the board as it was. */
  lemma AddCardNoMatch(b: Board, listId: string, title: string, now: nat)
    requires FindList(b.lists, listId).None?
    ensures AddCard(b, listId, title, now) == b
  {
    assert AddCard(b, listId, title, now).lists == b.lists;
  }

  /** Adding a card to the list at position k touches only that list and adds exactly one card. */
  lemma AddCardAt(b: Board, k: nat, title: string, now: nat)
    requires UniqueListIds(b.lists) && k < |b.lists|
    ensures var card := Card(PrefixedId("card-", now), title, []);
      && AddCard(b, b.lists[k].id, title, now).lists == b.lists[k := b.lists[k].(cards := b.lists[k].cards + [card])]
      && multiset(AllCards(AddCard(b, b.lists[k].id, title, now).lists)) == multiset(AllCards(b.lists)) + multiset{card}
  {
    var card := Card(PrefixedId("card-", now), title, []);
    var l := b.lists[k].(cards := b.lists[k].cards + [card]);
    assert AddCard(b, b.lists[k].id, title, now).lists == b.lists[k := l];
    AllCardsUpdate(b.lists, k, l);
    assert multiset(l.cards) == multiset(b.lists[k].cards) + multiset{card};
    MultisetCancel(multiset(AllCards(b.lists[k := l])), multiset(AllCards(b.lists)) + multiset{card}, multiset(b.lists[k].cards));
  }

  function RetitleCard(c: Card, cardId: string, title: string): Card {
    if c.id == cardId then c.(title := title) else c
  }

  function RetitleCardsOf(l: List, cardId: string, title: string): List {
    l.(cards := seq(|l.cards|, j requires 0 <= j < |l.cards| => RetitleCard(l.cards[j], cardId, title)))
  }

  /** Rename every card, in any list, whose id matches; nothing else changes. */
  function UpdateCardTitle(b: Board, cardId: string, title: string): (r: Board)
    ensures r.id == b.id && r.title == b.title && |r.lists| == |b.lists|
    ensures forall i :: 0 <= i < |b.lists| ==>
      && r.lists[i].id == b.lists[i].id
      && r.lists[i].title == b.lists[i].title
      && |r.lists[i].cards| == |b.lists[i].cards|
    ensures forall i, j :: 0 <= i < |b.lists| && 0 <= j < |b.lists[i].cards| ==>
      && r.lists[i].cards[j].id == b.lists[i].cards[j].id
      && r.lists[i].cards[j].comments == b.lists[i].cards[j].comments
      && r.lists[i].cards[j].title == (if b.lists[i].cards[j].id == cardId then title else b.lists[i].cards[j].title)
    ensures |AllCards(r.lists)| == |AllCards(b.lists)|
  {
    var ls := seq(|b.lists|, i requires 0 <= i < |b.lists| => RetitleCardsOf(b.lists[i], cardId, title));
    AllCardsSameCount(ls, b.lists);
    b.(lists := ls)
  }

  /** Renaming a card that does not exist leaves the board as it was. */
  lemma UpdateCardTitleNoMatch(b: Board, cardId: string, title: string)
    requires !HasCard(b.lists, cardId)
    ensures UpdateCardTitle(b, cardId, title) == b
  {
    var r := UpdateCardTitle(b, cardId, title);
    forall i | 0 <= i < |b.lists|
      ensures r.lists[i] == b.lists[i]
    {
      assert r.lists[i].cards == b.lists[i].cards;
    }
    assert r.lists == b.lists;
  }

  function Reordered(l: List, listId: string, newCards: seq<Card>): (r: List)
    ensures r.id == l.id && r.title == l.title && (l.id != listId ==> r == l)
  {
    if l.id == listId then l.(cards := newCards) else l
  }

  function Transferred(l: List, sourceListId: string, destinationListId: string,
                       sourceIndex: int, destinationIndex: int, card: Card): (r: List)
    ensures r.id == l.id && r.title == l.title
    ensures l.id != sourceListId && l.id != destinationListId ==> r == l
  {
    if l.id == sourceListId then l.(cards := RemoveAt(l.cards, sourceIndex))
    else if l.id == destinationListId then l.(cards := InsertAt(l.cards, destinationIndex, card))
    else l
  }

  /**
   * Move a card. The card at sourceIndex of the list sourceListId is removed
   * and inserted at destinationIndex: within the same list, counted in the
   * shortened sequence; across lists, counted in the destination's own cards.
   * Nothing happens when the source list or the card does not exist.
   */
  function MoveCard(b: Board, sourceListId: string, destinationListId: string,
                    sourceIndex: int, destinationIndex: int): (r: Board)
    ensures r.id == b.id && r.title == b.title && |r.lists| == |b.lists|
    ensures forall i :: 0 <= i < |b.lists| ==> r.lists[i].id == b.lists[i].id && r.lists[i].title == b.lists[i].title
    ensures forall i :: 0 <= i < |b.lists| && b.lists[i].id != sourceListId && b.lists[i].id != destinationListId ==>
      r.lists[i] == b.lists[i]
  {
    match FindList(b.lists, sourceListId)
    case None => b
    case Some(source) =>
      if !(0 <= sourceIndex < |source.cards|) then b
      else
        var card := source.cards[sourceIndex];
        if sourceListId == destinationListId then
          var newCards := Move(source.cards, sourceIndex, destinationIndex);
          b.(lists := seq(|b.lists|, i requires 0 <= i < |b.lists| => Reordered(b.lists[i], sourceListId, newCards)))
        else
          b.(lists := seq(|b.lists|, i requires 0 <= i < |b.lists| =>
            Transferred(b.lists[i], sourceListId, destinationListId, sourceIndex, destinationIndex, card)))
  }

  /** No source list, or no card at sourceIndex: the snapshot is returned unchanged. */
  lemma MoveCardNoSource(b: Board, sourceListId: string, destinationListId: string, sourceIndex: int, destinationIndex: int)
    requires FindList(b.lists, sourceListId).None?
          || !(0 <= sourceIndex < |FindList(b.lists, sourceListId).value.cards|)
    ensures MoveCard(b, sourceListId, destinationListId, sourceIndex, destinationIndex) == b
  {
  }

  /** The shape of a reorder within the list at k. */
  lemma ReorderShape(b: Board, k: nat, sourceIndex: nat, destinationIndex: int)
    requires UniqueListIds(b.lists) && k < |b.lists| && sourceIndex < |b.lists[k].cards|
    ensures MoveCard(b, b.lists[k].id, b.lists[k].id, sourceIndex, destinationIndex)
         == b.(lists := b.lists[k := b.lists[k].(cards := Move(b.lists[k].cards, sourceIndex, destinationIndex))])
  {
    var ls := b.lists;
    FindUnique(ls, k);
    var newCards := Move(ls[k].cards, sourceIndex, destinationIndex);
    var r := MoveCard(b, ls[k].id, ls[k].id, sourceIndex, destinationIndex);
    forall i | 0 <= i < |ls|
      ensures r.lists[i] == ls[k := ls[k].(cards := newCards)][i]
    {
      assert r.lists[i] == Reordered(ls[i], ls[k].id, newCards);
    }
    assert r.lists == ls[k := ls[k].(cards := newCards)];
  }

  /**
   * Within one list (at position k): the list's cards become the move of the
   * card, every other list is untouched, and the board keeps its cards.
   */
  lemma MoveCardWithin(b: Board, k: nat, sourceIndex: nat, destinationIndex: int)
    requires UniqueListIds(b.lists) && k < |b.lists| && sourceIndex < |b.lists[k].cards|
    ensures var r := MoveCard(b, b.lists[k].id, b.lists[k].id, sourceIndex, destinationIndex);
      && r.lists == b.lists[k := b.lists[k].(cards := Move(b.lists[k].cards, sourceIndex, destinationIndex))]
      && multiset(r.lists[k].cards) == multiset(b.lists[k].cards)
      && multiset(AllCards(r.lists)) == multiset(AllCards(b.lists))
      && |AllCards(r.lists)| == |AllCards(b.lists)|
  {
    var l := b.lists[k].(cards := Move(b.lists[k].cards, sourceIndex, destinationIndex));
    ReorderShape(b, k, sourceIndex, destinationIndex);
    AllCardsUpdate(b.lists, k, l);
    MultisetCancel(multiset(AllCards(b.lists[k := l])), multiset(AllCards(b.lists)), multiset(l.cards));
  }

  /** Dropping a card back at its own position in its own list changes nothing. */
  lemma MoveCardInPlace(b: Board, k: nat, i: nat)
    requires UniqueListIds(b.lists) && k < |b.lists| && i < |b.lists[k].cards|
    ensures MoveCard(b, b.lists[k].id, b.lists[k].id, i, i) == b
  {
    var l := b.lists[k];
    assert MoveCard(b, l.id, l.id, i, i) == b.(lists := b.lists[k := l.(cards := Move(l.cards, i, i))]) by {
      ReorderShape(b, k, i, i);
    }
    assert Move(l.cards, i, i) == l.cards by {
      MoveInPlace(l.cards, i);
    }
    assert l.(cards := l.cards) == l;
    assert b.lists[k := l] == b.lists;
  }

  /** The shape of a transfer between the lists at k and m. */
  lemma TransferShape(b: Board, k: nat, m: nat, sourceIndex: nat, destinationIndex: int)
    requires UniqueListIds(b.lists) && k < |b.lists| && m < |b.lists| && k != m
    requires sourceIndex < |b.lists[k].cards|
    ensures MoveCard(b, b.lists[k].id, b.lists[m].id, sourceIndex, destinationIndex).lists
         == b.lists[k := b.lists[k].(cards := RemoveAt(b.lists[k].cards, sourceIndex))]
                   [m := b.lists[m].(cards := InsertAt(b.lists[m].cards, destinationIndex, b.lists[k].cards[sourceIndex]))]
  {
    var ls := b.lists;
    var card := ls[k].cards[sourceIndex];
    var ts := seq(|ls|, i requires 0 <= i < |ls| =>
      Transferred(ls[i], ls[k].id, ls[m].id, sourceIndex, destinationIndex, card));
    assert MoveCard(b, ls[k].id, ls[m].id, sourceIndex, destinationIndex).lists == ts by {
      FindUnique(ls, k);
    }
    var src := ls[k].(cards := RemoveAt(ls[k].cards, sourceIndex));
    var dst := ls[m].(cards := InsertAt(ls[m].cards, destinationIndex, card));
    forall i | 0 <= i < |ls|
      ensures ts[i] == ls[k := src][m := dst][i]
    {
      if i != k && i != m {
        assert ls[i].id != ls[k].id && ls[i].id != ls[m].id;
      }
    }
    assert ts == ls[k := src][m := dst];
  }

  /**
   * Between two lists (source at k, destination at m): the source loses exactly
   * the card at sourceIndex, the destination gains that card at the normalised
   * destinationIndex, and the board keeps its cards.
   */
  lemma MoveCardAcross(b: Board, k: nat, m: nat, sourceIndex: nat, destinationIndex: int)
    requires UniqueListIds(b.lists) && k < |b.lists| && m < |b.lists| && k != m
    requires sourceIndex < |b.lists[k].cards|
    ensures var card := b.lists[k].cards[sourceIndex];
      var r := MoveCard(b, b.lists[k].id, b.lists[m].id, sourceIndex, destinationIndex);
      && r.lists[k].cards == RemoveAt(b.lists[k].cards, sourceIndex)
      && r.lists[m].cards == InsertAt(b.lists[m].cards, destinationIndex, card)
      && r.lists[m].cards[StartIndex(|b.lists[m].cards|, destinationIndex)] == card
      && multiset(AllCards(r.lists)) == multiset(AllCards(b.lists))
      && |AllCards(r.lists)| == |AllCards(b.lists)|
  {
    TransferShape(b, k, m, sourceIndex, destinationIndex);
    TransferKeepsCards(b.lists, k, m, sourceIndex, destinationIndex);
  }

  /** Taking a card out of one list and inserting it into another keeps the board's cards. */
  lemma TransferKeepsCards(ls: seq<List>, k: nat, m: nat, sourceIndex: nat, destinationIndex: int)
    requires k < |ls| && m < |ls| && k != m && sourceIndex < |ls[k].cards|
    ensures var card := ls[k].cards[sourceIndex];
      var after := ls[k := ls[k].(cards := RemoveAt(ls[k].cards, sourceIndex))]
                     [m := ls[m].(cards := InsertAt(ls[m].cards, destinationIndex, card))];
      && multiset(AllCards(after)) == multiset(AllCards(ls))
      && |AllCards(after)| == |AllCards(ls)|
  {
    var card := ls[k].cards[sourceIndex];
    var src := ls[k].(cards := RemoveAt(ls[k].cards, sourceIndex));
    var dst := ls[m].(cards := InsertAt(ls[m].cards, destinationIndex, card));
    var ls1 := ls[k := src];
    AllCardsUpdate(ls, k, src);
    assert multiset(ls[k].cards) == multiset(src.cards) + multiset{card};
    MultisetCancel(multiset(AllCards(ls1)) + multiset{card}, multiset(AllCards(ls)), multiset(src.cards));
    AllCardsUpdate(ls1, m, dst);
    assert ls1[m] == ls[m];
    assert multiset(dst.cards) == multiset(ls[m].cards) + multiset{card};
    MultisetCancel(multiset(AllCards(ls1[m := dst])), multiset(AllCards(ls1)) + multiset{card}, multiset(ls[m].cards));
  }

  /**
   * Moving a card within its list onto the position of another card: the
   * list's cards become the move and nothing else changes; the moved card
   * takes that position and the displaced card steps one place towards
   * where the moved card came from.
   */
  lemma MoveCardOnto(b: Board, k: nat, sourceIndex: nat, destinationIndex: nat)
    requires UniqueListIds(b.lists) && k < |b.lists|
    requires sourceIndex < |b.lists[k].cards| && destinationIndex < |b.lists[k].cards|
    requires sourceIndex != destinationIndex
    ensures var cards := b.lists[k].cards;
      var moved := Move(cards, sourceIndex, destinationIndex);
      && MoveCard(b, b.lists[k].id, b.lists[k].id, sourceIndex, destinationIndex)
         == b.(lists := b.lists[k := b.lists[k].(cards := moved)])
      && moved[destinationIndex] == cards[sourceIndex]
      && moved[if sourceIndex < destinationIndex then destinationIndex - 1 else destinationIndex + 1]
         == cards[destinationIndex]
      && multiset(moved) == multiset(cards)
  {
    ReorderShape(b, k, sourceIndex, destinationIndex);
    MoveOnto(b.lists[k].cards, sourceIndex, destinationIndex);
  }

  /**
   * Moving a card to another list just after the card at position j there:
   * the card at j stays where it was and the moved card follows it.
   */
  lemma MoveCardAfter(b: Board, k: nat, m: nat, sourceIndex: nat, j: nat)
    requires UniqueListIds(b.lists) && k < |b.lists| && m < |b.lists| && k != m
    requires sourceIndex < |b.lists[k].cards| && j < |b.lists[m].cards|
    ensures var r := MoveCard(b, b.lists[k].id, b.lists[m].id, sourceIndex, j + 1);
      && |r.lists| == |b.lists| && |r.lists[m].cards| == |b.lists[m].cards| + 1
      && r.lists[m].cards[j] == b.lists[m].cards[j]
      && r.lists[m].cards[j + 1] == b.lists[k].cards[sourceIndex]
  {
    var card := b.lists[k].cards[sourceIndex];
    MoveCardAcross(b, k, m, sourceIndex, j + 1);
    InsertAtPositions(b.lists[m].cards, j + 1, card);
  }

  /**
   * Moving a card to the end of a list (its own or another): the card ends
   * up last there and the board keeps its cards.
   */
  lemma MoveCardToEnd(b: Board, k: nat, m: nat, sourceIndex: nat)
    requires UniqueListIds(b.lists) && k < |b.lists| && m < |b.lists|
    requires sourceIndex < |b.lists[k].cards|
    ensures var r := MoveCard(b, b.lists[k].id, b.lists[m].id, sourceIndex, |b.lists[m].cards|);
      && |r.lists| == |b.lists| && |r.lists[m].cards| > 0
      && r.lists[m].cards[|r.lists[m].cards| - 1] == b.lists[k].cards[sourceIndex]
      && multiset(AllCards(r.lists)) == multiset(AllCards(b.lists))
  {
    var n := |b.lists[m].cards|;
    var r := MoveCard(b, b.lists[k].id, b.lists[m].id, sourceIndex, n);
    if k == m {
      MoveCardWithin(b, k, sourceIndex, n);
      assert r.lists[m].cards == Move(b.lists[k].cards, sourceIndex, n);
      assert StartIndex(n - 1, n) == n - 1;
    } else {
      MoveCardAcross(b, k, m, sourceIndex, n);
      assert StartIndex(n, n) == n;
    }
  }

  /**
   * Between lists when no list has the destination id: the card is removed from
   * its source and inserted nowhere, so it leaves the board.
   */
  lemma MoveCardToMissingList(b: Board, k: nat, sourceIndex: nat, destinationListId: string, destinationIndex: int)
    requires UniqueListIds(b.lists) && k < |b.lists| && sourceIndex < |b.lists[k].cards|
    requires FindList(b.lists, destinationListId).None?
    ensures var r := MoveCard(b, b.lists[k].id, destinationListId, sourceIndex, destinationIndex);
      && r.lists == b.lists[k := b.lists[k].(cards := RemoveAt(b.lists[k].cards, sourceIndex))]
      && multiset(AllCards(r.lists)) == multiset(AllCards(b.lists)) - multiset{b.lists[k].cards[sourceIndex]}
      && |AllCards(r.lists)| == |AllCards(b.lists)| - 1
  {
    var ls := b.lists;
    FindUnique(ls, k);
    var src := ls[k].(cards := RemoveAt(ls[k].cards, sourceIndex));
    var r := MoveCard(b, ls[k].id, destinationListId, sourceIndex, destinationIndex);
    assert r.lists == ls[k := src];
    AllCardsUpdate(ls, k, src);
    assert multiset(ls[k].cards) == multiset(src.cards) + multiset{ls[k].cards[sourceIndex]};
    MultisetCancel(multiset(AllCards(r.lists)) + multiset{ls[k].cards[sourceIndex]}, multiset(AllCards(ls)), multiset(src.cards));
  }

  // ---------------------------------------------------------------- comments

  function AppendComment(c: Card, cardId: string, comment: Comment): Card {
    if c.id == cardId then c.(comments := c.comments + [comment]) else c
  }

  function AppendCommentIn(l: List, cardId: string, comment: Comment): List {
    l.(cards := seq(|l.cards|, j requires 0 <= j < |l.cards| => AppendComment(l.cards[j], cardId, comment)))
  }

  /** The comment addComment creates: authored by 'You', stamped with the given time. */
  function NewComment(content: string, now: nat, createdAt: string): (c: Comment)
    ensures c.author == "You" && c.content == content && c.createdAt == createdAt
    ensures HasPrefix(c.id, "comment-") && c.id == PrefixedId("comment-", now)
  {
    Comment(PrefixedId("comment-", now), content, "You", createdAt)
  }

  /** Append one new comment to every card, in any list, whose id matches. */
  function AddComment(b: Board, cardId: string, content: string, now: nat, createdAt: string): (r: Board)
    ensures r.id == b.id && r.title == b.title && |r.lists| == |b.lists|
    ensures forall i :: 0 <= i < |b.lists| ==>
      && r.lists[i].id == b.lists[i].id
      && r.lists[i].title == b.lists[i].title
      && |r.lists[i].cards| == |b.lists[i].cards|
    ensures forall i, j :: 0 <= i < |b.lists| && 0 <= j < |b.lists[i].cards| ==>
      && r.lists[i].cards[j].id == b.lists[i].cards[j].id
      && r.lists[i].cards[j].title == b.lists[i].cards[j].title
      && r.lists[i].cards[j].comments == if b.lists[i].cards[j].id == cardId
                                        then b.lists[i].cards[j].comments + [NewComment(content, now, createdAt)]
                                        else b.lists[i].cards[j].comments
    ensures |AllCards(r.lists)| == |AllCards(b.lists)|
  {
    var comment := NewComment(content, now, createdAt);
    var ls := seq(|b.lists|, i requires 0 <= i < |b.lists| => AppendCommentIn(b.lists[i], cardId, comment));
    AllCardsSameCount(ls, b.lists);
    b.(lists := ls)
  }

  /**
   * Comments are append-only: every card keeps its earlier comments, in order
   * and unchanged, as a prefix, and gains at most one.
   */
  lemma AddCommentAppendOnly(b: Board, cardId: string, content: string, now: nat, createdAt: string, i: nat, j: nat)
    requires i < |b.lists| && j < |b.lists[i].cards|
    ensures var r := AddComment(b, cardId, content, now, createdAt);
      var before := b.lists[i].cards[j].comments;
      var after := r.lists[i].cards[j].comments;
      && before <= after
      && |after| == |before| + (if b.lists[i].cards[j].id == cardId then 1 else 0)
      && (b.lists[i].cards[j].id == cardId ==> after[|before|].author == "You")
  {
  }

  /** A comment on a card that does not exist leaves the board as it was. */
  lemma AddCommentNoMatch(b: Board, cardId: string, content: string, now: nat, createdAt: string)
    requires !HasCard(b.lists, cardId)
    ensures AddComment(b, cardId, content, now, createdAt) == b
  {
    var r := AddComment(b, cardId, content, now, createdAt);
    forall i | 0 <= i < |b.lists|
      ensures r.lists[i] == b.lists[i]
    {
      assert r.lists[i].cards == b.lists[i].cards;
    }
    assert r.lists == b.lists;
  }
}
