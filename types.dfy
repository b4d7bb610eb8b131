/**
 * The board data model (types/index.ts): a board holds an ordered sequence of
 * lists, a list an ordered sequence of cards, a card an ordered comment thread.
 * Identifiers are plain strings; nothing in the types makes them unique, so the
 * properties that need distinct list ids say so with UniqueListIds.
 */
module Types {
  import opened Wrappers

  datatype Comment = Comment(id: string, content: string, author: string, createdAt: string)
  datatype Card = Card(id: string, title: string, comments: seq<Comment>)
  datatype List = List(id: string, title: string, cards: seq<Card>)
  datatype Board = Board(id: string, title: string, lists: seq<List>)

  /** JavaScript's `s.startsWith(p)`. */
  predicate HasPrefix(s: string, p: string) {
    |p| <= |s| && s[..|p|] == p
  }

  /** Every list of the board carries its own id. */
  predicate UniqueListIds(ls: seq<List>) {
    forall i, j :: 0 <= i < j < |ls| ==> ls[i].id != ls[j].id
  }

  /** Some card of some list carries the id. */
  predicate HasCard(ls: seq<List>, cardId: string) {
    exists i, j :: 0 <= i < |ls| && 0 <= j < |ls[i].cards| && ls[i].cards[j].id == cardId
  }

  /** `lists.findIndex(l => l.id === id)`: the FIRST list with that id. */
  function FindListIndex(ls: seq<List>, id: string): (r: Option<nat>)
    ensures r.Some? ==> r.value < |ls| && ls[r.value].id == id
    ensures r.Some? ==> forall i :: 0 <= i < r.value ==> ls[i].id != id
    ensures r.None? <==> forall i :: 0 <= i < |ls| ==> ls[i].id != id
  {
    if ls == [] then None
    else if ls[0].id == id then Some(0)
    else match FindListIndex(ls[1..], id)
      case None => None
      case Some(k) => Some(k + 1)
  }

  /** `lists.find(l => l.id === id)`. */
  function FindList(ls: seq<List>, id: string): (r: Option<List>)
    ensures r.Some? <==> exists i :: 0 <= i < |ls| && ls[i].id == id
    ensures r.Some? ==> r.value in ls && r.value.id == id
  {
    match FindListIndex(ls, id)
    case Some(k) => Some(ls[k])
    case None => None
  }

  /**
   * `find` and `findIndex` agree: the list found is the one at the first
   * position with the id, so no earlier list carries it.
   */
  lemma FindListIsFirst(ls: seq<List>, id: string)
    ensures FindList(ls, id).Some? ==>
      FindListIndex(ls, id).Some? && FindList(ls, id).value == ls[FindListIndex(ls, id).value]
    ensures FindList(ls, id).None? <==> FindListIndex(ls, id).None?
  {
  }

  /** With distinct ids, the list found for an id is the one at its position. */
  lemma FindUnique(ls: seq<List>, k: nat)
    requires UniqueListIds(ls) && k < |ls|
    ensures FindListIndex(ls, ls[k].id) == Some(k)
    ensures FindList(ls, ls[k].id) == Some(ls[k])
  {
  }

  /** Every card of the board, list by list, in order. */
  function AllCards(ls: seq<List>): seq<Card> {
    if ls == [] then [] else ls[0].cards + AllCards(ls[1..])
  }

  lemma {:induction false} AllCardsAppend(p: seq<List>, q: seq<List>)
    ensures AllCards(p + q) == AllCards(p) + AllCards(q)
  {
    if p == [] {
      assert p + q == q;
    } else {
      assert (p + q)[1..] == p[1..] + q;
      AllCardsAppend(p[1..], q);
    }
  }

  lemma AllCardsCons(l: List, rest: seq<List>)
    ensures AllCards([l] + rest) == l.cards + AllCards(rest)
  {
    assert ([l] + rest)[0] == l;
    assert ([l] + rest)[1..] == rest;
  }

  /** The cards of the board are those before list k, those of list k, and those after. */
  lemma {:induction false} AllCardsSplit(ls: seq<List>, k: nat)
    requires k < |ls|
    ensures AllCards(ls) == AllCards(ls[..k]) + ls[k].cards + AllCards(ls[k + 1..])
  {
    if k == 0 {
      assert AllCards(ls[..0]) == [];
    } else {
      AllCardsSplit(ls[1..], k - 1);
      assert ls[1..][k - 1] == ls[k];
      assert ls[1..][k..] == ls[k + 1..];
      assert ls[..k][0] == ls[0] && ls[..k][1..] == ls[1..][..k - 1];
      assert AllCards(ls[..k]) == ls[0].cards + AllCards(ls[1..][..k - 1]);
    }
  }

  /** Replacing one list changes the board's cards by exactly that list's cards. */
  lemma AllCardsUpdate(ls: seq<List>, k: nat, l: List)
    requires k < |ls|
    ensures multiset(AllCards(ls[k := l])) + multiset(ls[k].cards) == multiset(AllCards(ls)) + multiset(l.cards)
    ensures |AllCards(ls[k := l])| + |ls[k].cards| == |AllCards(ls)| + |l.cards|
  {
    var ls' := ls[k := l];
    AllCardsSplit(ls, k);
    AllCardsSplit(ls', k);
    assert ls'[..k] == ls[..k];
    assert ls'[k + 1..] == ls[k + 1..];
  }

  lemma MultisetCancel<T>(a: multiset<T>, b: multiset<T>, x: multiset<T>)
    requires a + x == b + x
    ensures a == b
  {
    forall o
      ensures a[o] == b[o]
    {
      assert (a + x)[o] == a[o] + x[o];
      assert (b + x)[o] == b[o] + x[o];
    }
  }

  /** Two boards whose lists hold the same cards, position by position, hold the same cards. */
  lemma {:induction false} AllCardsSameCards(ls: seq<List>, ls': seq<List>)
    requires |ls| == |ls'|
    requires forall i :: 0 <= i < |ls| ==> ls[i].cards == ls'[i].cards
    ensures AllCards(ls) == AllCards(ls')
  {
    if ls != [] {
      AllCardsSameCards(ls[1..], ls'[1..]);
    }
  }

  /** Two boards whose lists hold as many cards, position by position, hold as many cards. */
  lemma {:induction false} AllCardsSameCount(ls: seq<List>, ls': seq<List>)
    requires |ls| == |ls'|
    requires forall i :: 0 <= i < |ls| ==> |ls[i].cards| == |ls'[i].cards|
    ensures |AllCards(ls)| == |AllCards(ls')|
  {
    if ls != [] {
      AllCardsSameCount(ls[1..], ls'[1..]);
    }
  }
}
