/**
 * The memo list's state transitions on the screen: adding a memo from the text
 * box and deleting one by id. The record store, the clock and the confirmation
 * dialog are parameters: whether the store call succeeds, what `Date.now()`
 * returns, and whether the user confirmed.
 */
module Memos {
  import opened Wrappers
  import opened Text

  datatype Memo = Memo(id: int, content: string, createdAt: int)

  /** The part of the screen the two handlers change: the memos shown and the text box. */
  datatype Screen = Screen(memos: seq<Memo>, input: string)

  /** After adding: the screen, the memo handed to the store (if the store was called), and the alert shown (if any). */
  datatype AddResult = AddResult(screen: Screen, storeCall: Option<Memo>, alert: Option<string>)

  /** After deleting: the memos shown, whether the store was called, and the alert shown (if any). */
  datatype DeleteResult = DeleteResult(memos: seq<Memo>, storeCalled: bool, alert: Option<string>)

  /** "Enter a memo!" */
  const EMPTY_INPUT_ALERT: string := "메모를 입력하세요!"
  /** "Adding the memo failed!" */
  const ADD_FAILED_ALERT: string := "메모 추가 실패!"
  /** "Deleting failed!" */
  const DELETE_FAILED_ALERT: string := "삭제 실패!"

  /**
   * `addMemo`: a blank input (empty after trimming) only raises an alert; otherwise
   * the trimmed text becomes a memo whose id and creation time are two readings of
   * the clock, and on a successful store it is put first and the box is cleared.
   */
  function AddMemo(screen: Screen, idClock: int, createdClock: int, storeSucceeds: bool): (r: AddResult)
    ensures Trim(screen.input) == [] ==> r == AddResult(screen, None, Some(EMPTY_INPUT_ALERT))
    ensures Trim(screen.input) != [] ==> r.storeCall == Some(Memo(idClock, Trim(screen.input), createdClock))
    ensures Trim(screen.input) != [] && storeSucceeds ==>
              && |r.screen.memos| == |screen.memos| + 1
              && r.screen.memos[0] == r.storeCall.value
              && r.screen.memos[1..] == screen.memos
              && r.screen.input == []
              && r.alert == None
    ensures Trim(screen.input) != [] && !storeSucceeds ==>
              r.screen == screen && r.alert == Some(ADD_FAILED_ALERT)
  {
    var trimmed := Trim(screen.input);
    if trimmed == [] then AddResult(screen, None, Some(EMPTY_INPUT_ALERT))
    else
      var memo := Memo(idClock, trimmed, createdClock);
      if storeSucceeds then AddResult(Screen([memo] + screen.memos, ""), Some(memo), None)
      else AddResult(screen, Some(memo), Some(ADD_FAILED_ALERT))
  }

  /** The memos whose id differs from `id`, in their original order (`memos.filter(m => m.id !== id)`). */
  function RemoveId(memos: seq<Memo>, id: int): (r: seq<Memo>)
    ensures forall m :: m in r <==> m in memos && m.id != id
  {
    if memos == [] then []
    else
      var rest := RemoveId(memos[1..], id);
      if memos[0].id != id then [memos[0]] + rest else rest
  }

  /** Every memo with another id is kept as many times as it occurs, and none with this id is. */
  lemma {:induction false} RemoveIdCounts(memos: seq<Memo>, id: int, m: Memo)
    ensures multiset(RemoveId(memos, id))[m] == if m.id == id then 0 else multiset(memos)[m]
  {
    if memos != [] {
      RemoveIdCounts(memos[1..], id, m);
      assert memos == [memos[0]] + memos[1..];
    }
  }

  /** Filtering by id distributes over concatenation: what is kept keeps its relative order. */
  lemma {:induction false} RemoveIdConcat(a: seq<Memo>, b: seq<Memo>, id: int)
    ensures RemoveId(a + b, id) == RemoveId(a, id) + RemoveId(b, id)
  {
    if a != [] {
      assert (a + b)[1..] == a[1..] + b;
      RemoveIdConcat(a[1..], b, id);
    } else {
      assert a + b == b;
    }
  }

  /** Removing an id nobody has changes nothing. */
  lemma {:induction false} RemoveAbsentId(memos: seq<Memo>, id: int)
    requires forall i :: 0 <= i < |memos| ==> memos[i].id != id
    ensures RemoveId(memos, id) == memos
  {
    if memos != [] {
      RemoveAbsentId(memos[1..], id);
    }
  }

  /** Removing the same id twice is the same as removing it once. */
  lemma RemoveIdIdempotent(memos: seq<Memo>, id: int)
    ensures RemoveId(RemoveId(memos, id), id) == RemoveId(memos, id)
  {
  }

  /**
   * `deleteMemo`: nothing happens unless the user confirms; a confirmed delete calls
   * the store and, if it succeeds, drops every memo with that id, else alerts.
   */
  function DeleteMemo(memos: seq<Memo>, id: int, confirmed: bool, storeSucceeds: bool): (r: DeleteResult)
    ensures r.storeCalled <==> confirmed
    ensures !(confirmed && storeSucceeds) ==> r.memos == memos
    ensures confirmed && !storeSucceeds <==> r.alert == Some(DELETE_FAILED_ALERT)
    ensures r.alert.Some? ==> r.alert == Some(DELETE_FAILED_ALERT)
    ensures confirmed && storeSucceeds ==> r.memos == RemoveId(memos, id)
    ensures confirmed && storeSucceeds ==>
              && (forall i :: 0 <= i < |r.memos| ==> r.memos[i].id != id)
              && (forall m :: m in memos && m.id != id ==> m in r.memos)
              && (forall m :: m in r.memos ==> m in memos)
  {
    if !confirmed then DeleteResult(memos, false, None)
    else if storeSucceeds then
      var kept := RemoveId(memos, id);
      assert forall i :: 0 <= i < |kept| ==> kept[i] in kept;
      DeleteResult(kept, true, None)
    else DeleteResult(memos, true, Some(DELETE_FAILED_ALERT))
  }

  /**
   * Every memo shown holds non-empty text with no surrounding whitespace, which
   * is text `trim()` leaves unchanged (`TrimFixedIff`).
   */
  predicate ContentsTrimmed(memos: seq<Memo>) {
    forall i :: 0 <= i < |memos| ==> memos[i].content != [] && NoSurroundingWhitespace(memos[i].content)
  }

  /** Newest first: creation times never increase along the list (the order the store lists memos in). */
  predicate NewestFirst(memos: seq<Memo>) {
    forall i, j :: 0 <= i < j < |memos| ==> memos[i].createdAt >= memos[j].createdAt
  }

  /** No two memos shown share an id. */
  predicate DistinctIds(memos: seq<Memo>) {
    forall i, j :: 0 <= i < j < |memos| ==> memos[i].id != memos[j].id
  }

  /** Adding keeps every memo's text non-empty and trimmed. */
  lemma AddKeepsContentsTrimmed(screen: Screen, idClock: int, createdClock: int, storeSucceeds: bool)
    requires ContentsTrimmed(screen.memos)
    ensures ContentsTrimmed(AddMemo(screen, idClock, createdClock, storeSucceeds).screen.memos)
  {
    var text := Trim(screen.input);
    var r := AddMemo(screen, idClock, createdClock, storeSucceeds).screen.memos;
    if text != [] && storeSucceeds {
      assert r[0].content == text && NoSurroundingWhitespace(text);
      forall i | 0 <= i < |r| ensures r[i].content != [] && NoSurroundingWhitespace(r[i].content) {
        if i > 0 { assert r[i] == r[1..][i - 1] == screen.memos[i - 1]; }
      }
    } else {
      assert r == screen.memos;
    }
  }

  /** Adding keeps the list newest first as long as the clock has not gone back past a shown memo. */
  lemma AddKeepsNewestFirst(screen: Screen, idClock: int, createdClock: int, storeSucceeds: bool)
    requires NewestFirst(screen.memos)
    requires forall i :: 0 <= i < |screen.memos| ==> screen.memos[i].createdAt <= createdClock
    ensures NewestFirst(AddMemo(screen, idClock, createdClock, storeSucceeds).screen.memos)
  {
  }

  /** Adding keeps ids distinct as long as the new id is not one already shown. */
  lemma AddKeepsDistinctIds(screen: Screen, idClock: int, createdClock: int, storeSucceeds: bool)
    requires DistinctIds(screen.memos)
    requires forall i :: 0 <= i < |screen.memos| ==> screen.memos[i].id != idClock
    ensures DistinctIds(AddMemo(screen, idClock, createdClock, storeSucceeds).screen.memos)
  {
  }

  /** Filtering keeps an upper bound on the creation times. */
  lemma {:induction false} RemoveIdKeepsBound(memos: seq<Memo>, id: int, bound: int)
    requires forall i :: 0 <= i < |memos| ==> memos[i].createdAt <= bound
    ensures forall j :: 0 <= j < |RemoveId(memos, id)| ==> RemoveId(memos, id)[j].createdAt <= bound
  {
    if memos != [] {
      RemoveIdKeepsBound(memos[1..], id, bound);
    }
  }

  /** Deleting keeps the list newest first. */
  lemma {:induction false} RemoveIdKeepsNewestFirst(memos: seq<Memo>, id: int)
    requires NewestFirst(memos)
    ensures NewestFirst(RemoveId(memos, id))
  {
    if memos != [] {
      var tail := memos[1..];
      RemoveIdKeepsNewestFirst(tail, id);
      RemoveIdKeepsBound(tail, id, memos[0].createdAt);
    }
  }

  /** Deleting keeps every memo's text non-empty and trimmed and the ids distinct. */
  lemma DeleteKeepsInvariants(memos: seq<Memo>, id: int, confirmed: bool, storeSucceeds: bool)
    requires ContentsTrimmed(memos) && NewestFirst(memos) && DistinctIds(memos)
    ensures var r := DeleteMemo(memos, id, confirmed, storeSucceeds).memos;
            ContentsTrimmed(r) && NewestFirst(r) && DistinctIds(r)
  {
    var r := RemoveId(memos, id);
    RemoveIdKeepsNewestFirst(memos, id);
    forall i | 0 <= i < |r| ensures r[i].content != [] && NoSurroundingWhitespace(r[i].content) {
      assert r[i] in memos;
    }
    RemoveIdKeepsDistinctIds(memos, id);
  }

  /** Deleting keeps ids distinct. */
  lemma {:induction false} RemoveIdKeepsDistinctIds(memos: seq<Memo>, id: int)
    requires DistinctIds(memos)
    ensures DistinctIds(RemoveId(memos, id))
  {
    if memos != [] {
      assert DistinctIds(memos[1..]) by {
        forall i, j | 0 <= i < j < |memos[1..]| ensures memos[1..][i].id != memos[1..][j].id {
          assert memos[1..][i] == memos[i + 1] && memos[1..][j] == memos[j + 1];
        }
      }
      RemoveIdKeepsDistinctIds(memos[1..], id);
      var rest := RemoveId(memos[1..], id);
      forall j | 0 <= j < |rest| ensures memos[0].id != rest[j].id {
        assert rest[j] in rest;
        var k :| 0 <= k < |memos[1..]| && memos[1..][k] == rest[j];
        assert memos[k + 1] == rest[j];
      }
    }
  }
}
