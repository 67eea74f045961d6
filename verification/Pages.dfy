/** Keyset pagination of a collection (services/profile/internal/repo_memory.go:52-73,
    services/profile/internal/collection.go:65-71, 100-103). */
module Pages {
  import opened Repo

  // ----- Go's string order -----

  predicate Before(a: string, b: string) {
    b != "" && (a == "" || a[0] < b[0] || (a[0] == b[0] && Before(a[1..], b[1..])))
  }

  lemma {:induction false} BeforeTransitive(a: string, b: string, c: string)
    requires Before(a, b) && Before(b, c)
    ensures Before(a, c)
  {
    if a != "" && a[0] == b[0] && b[0] == c[0] {
      BeforeTransitive(a[1..], b[1..], c[1..]);
    }
  }

  lemma {:induction false} BeforeTotal(a: string, b: string)
    ensures a == b || Before(a, b) || Before(b, a)
  {
    if a != "" && b != "" && a[0] == b[0] {
      BeforeTotal(a[1..], b[1..]);
      assert a == [a[0]] + a[1..] && b == [b[0]] + b[1..];
    }
  }

  lemma {:induction false} BeforeIrreflexive(a: string)
    ensures !Before(a, a)
  {
    if a != "" {
      BeforeIrreflexive(a[1..]);
    }
  }

  // ----- One page -----

  predicate Increasing(ids: seq<string>) {
    forall i, j :: 0 <= i < j < |ids| ==> Before(ids[i], ids[j])
  }

  /** The creatures of an owner that come after a cursor. */
  function Remaining(cs: Collection, owner: string, cursor: string): set<string> {
    set id | id in cs && cs[id].ownerID == owner && Before(cursor, id)
  }

  /** The first ids after the cursor, in order: limit of them, or all there are. */
  ghost predicate IsPage(cs: Collection, owner: string, cursor: string, limit: nat, page: seq<string>) {
    var rest := Remaining(cs, owner, cursor);
    && Increasing(page) && |page| <= limit
    && (forall id :: id in page ==> id in rest)
    && (forall id :: id in rest && id !in page ==> |page| == limit && forall x :: x in page ==> Before(x, id))
  }

  function NextCursor(page: seq<string>): string {
    if page == [] then "" else page[|page| - 1]
  }

  function InsertID(id: string, ids: seq<string>): (r: seq<string>)
    ensures forall x :: x in r <==> x == id || x in ids
  {
    if ids == [] || Before(id, ids[0]) then [id] + ids else [ids[0]] + InsertID(id, ids[1..])
  }

  lemma {:induction false} InsertIncreasing(id: string, ids: seq<string>)
    requires Increasing(ids) && id !in ids
    ensures Increasing(InsertID(id, ids))
  {
    hide Before;
    if ids == [] {
    } else if Before(id, ids[0]) {
      forall j | 0 < j < |ids| ensures Before(id, ids[j]) {
        BeforeTransitive(id, ids[0], ids[j]);
      }
    } else {
      BeforeTotal(id, ids[0]);
      InsertIncreasing(id, ids[1..]);
      var rest := InsertID(id, ids[1..]);
      forall j | 0 <= j < |rest| ensures Before(ids[0], rest[j]) {
        assert rest[j] in rest;
      }
    }
  }

  /** Sorts a slice of distinct ids. */
  method SortByID(list: seq<string>) returns (ids: seq<string>)
    requires forall i, j :: 0 <= i < j < |list| ==> list[i] != list[j]
    ensures Increasing(ids) && forall x :: x in ids <==> x in list
  {
    hide Before;
    ids := [];
    for i := 0 to |list|
      invariant Increasing(ids) && forall x :: x in ids <==> x in list[..i]
    {
      assert list[i] !in list[..i];
      InsertIncreasing(list[i], ids);
      ids := InsertID(list[i], ids);
      assert list[..i + 1] == list[..i] + [list[i]];
    }
    assert list[..|list|] == list;
  }

  /** Filters the map in arbitrary order, sorts, and truncates. */
  method ListCreatures(repo: MemRepo, owner: string, cursor: string, limit: nat) returns (page: seq<string>, next: string)
    ensures IsPage(repo.creatures, owner, cursor, limit, page) && next == NextCursor(page)
  {
    hide Before;
    var owned: seq<string> := [];
    var unseen := repo.creatures.Keys;
    while unseen != {}
      invariant unseen <= repo.creatures.Keys
      invariant forall i, j :: 0 <= i < j < |owned| ==> owned[i] != owned[j]
      invariant forall id :: id in owned <==> id in Remaining(repo.creatures, owner, cursor) && id !in unseen
      decreases unseen
    {
      var id :| id in unseen;
      unseen := unseen - {id};
      if repo.creatures[id].ownerID == owner && Before(cursor, id) {
        owned := owned + [id];
      }
    }
    var all := SortByID(owned);
    page := all;
    if |page| > limit {
      page := page[..limit];
    }
    TruncationIsPage(repo.creatures, owner, cursor, limit, all);
    next := "";
    if |page| > 0 {
      next := page[|page| - 1];
    }
  }

  lemma TruncationIsPage(cs: Collection, owner: string, cursor: string, limit: nat, all: seq<string>)
    requires Increasing(all) && forall id :: id in all <==> id in Remaining(cs, owner, cursor)
    ensures IsPage(cs, owner, cursor, limit, if |all| > limit then all[..limit] else all)
  {
    hide Before, Remaining;
    var page := if |all| > limit then all[..limit] else all;
    forall id, x | id in all && id !in page && x in page ensures Before(x, id) {
      var i :| 0 <= i < |all| && all[i] == id;
      var j :| 0 <= j < |page| && page[j] == x;
      assert all[j] == x && i >= limit;
    }
  }

  /** The use-case layer keeps the page size within 1..100. */
  function PageSize(limit: int): (n: nat)
    ensures 1 <= n <= 100
  {
    if limit <= 0 || limit > 100 then 50 else limit
  }

  method List(repo: MemRepo, owner: string, cursor: string, limit: int) returns (page: seq<string>, next: string)
    ensures IsPage(repo.creatures, owner, cursor, PageSize(limit), page) && next == NextCursor(page)
  {
    var n := limit;
    if n <= 0 || n > 100 {
      n := 50;
    }
    page, next := ListCreatures(repo, owner, cursor, n);
  }

  // ----- Following the cursors while the collection changes -----

  function CursorAt(pages: seq<seq<string>>, k: nat): string
    requires k <= |pages|
  {
    if k == 0 then "" else NextCursor(pages[k - 1])
  }

  /** Page k is served from the collection as it is at that time; every page but the last is
      non-empty, since an empty page ends the traversal. */
  ghost predicate Traversal(css: seq<Collection>, owner: string, limit: nat, pages: seq<seq<string>>) {
    && |css| == |pages|
    && (forall k :: 0 <= k < |pages| ==> IsPage(css[k], owner, CursorAt(pages, k), limit, pages[k]))
    && (forall k :: 0 <= k < |pages| - 1 ==> pages[k] != [])
  }

  ghost predicate Complete(css: seq<Collection>, owner: string, limit: nat, pages: seq<seq<string>>) {
    Traversal(css, owner, limit, pages) && pages != [] && pages[|pages| - 1] == []
  }

  lemma PageReachesCursor(cs: Collection, owner: string, cursor: string, limit: nat, page: seq<string>, id: string)
    requires IsPage(cs, owner, cursor, limit, page) && id in page
    ensures Before(cursor, id) && (id == NextCursor(page) || Before(id, NextCursor(page)))
  {
    hide Before;
    var i :| 0 <= i < |page| && page[i] == id;
    assert id in Remaining(cs, owner, cursor);
  }

  lemma CursorIsLast(css: seq<Collection>, owner: string, limit: nat, pages: seq<seq<string>>, k: nat)
    requires Traversal(css, owner, limit, pages) && k < |pages| - 1
    ensures pages[k] != [] && CursorAt(pages, k + 1) in pages[k]
    ensures Before(CursorAt(pages, k), CursorAt(pages, k + 1))
  {
    hide Before;
    assert pages[k][|pages[k]| - 1] in pages[k];
    PageReachesCursor(css[k], owner, CursorAt(pages, k), limit, pages[k], CursorAt(pages, k + 1));
  }

  lemma {:induction false} CursorsAdvance(css: seq<Collection>, owner: string, limit: nat, pages: seq<seq<string>>, k: nat, l: nat)
    requires Traversal(css, owner, limit, pages) && k < l < |pages|
    ensures CursorAt(pages, l) == CursorAt(pages, k + 1) || Before(CursorAt(pages, k + 1), CursorAt(pages, l))
    decreases l - k
  {
    hide Before, Traversal, CursorAt;
    if l > k + 1 {
      CursorsAdvance(css, owner, limit, pages, k, l - 1);
      CursorIsLast(css, owner, limit, pages, l - 1);
      if CursorAt(pages, l - 1) != CursorAt(pages, k + 1) {
        BeforeTransitive(CursorAt(pages, k + 1), CursorAt(pages, l - 1), CursorAt(pages, l));
      }
    }
  }

  /** Ids only ever go up: within a page, and from any page to any later one, whatever is added
      or removed in between. */
  lemma IdsIncrease(css: seq<Collection>, owner: string, limit: nat, pages: seq<seq<string>>, k: nat, l: nat, x: string, y: string)
    requires Traversal(css, owner, limit, pages) && k < l < |pages| && x in pages[k] && y in pages[l]
    ensures Increasing(pages[k]) && Before(x, y)
  {
    hide Before;
    PageReachesCursor(css[k], owner, CursorAt(pages, k), limit, pages[k], x);
    PageReachesCursor(css[l], owner, CursorAt(pages, l), limit, pages[l], y);
    CursorsAdvance(css, owner, limit, pages, k, l);
    if x != CursorAt(pages, k + 1) && CursorAt(pages, k + 1) != CursorAt(pages, l) {
      BeforeTransitive(x, CursorAt(pages, k + 1), CursorAt(pages, l));
    }
    if x != CursorAt(pages, l) {
      BeforeTransitive(x, CursorAt(pages, l), y);
    }
  }

  ghost predicate OwnedThroughout(css: seq<Collection>, owner: string, id: string) {
    forall k :: 0 <= k < |css| ==> id in css[k] && css[k][id].ownerID == owner
  }

  lemma SkippedIsAhead(cs: Collection, owner: string, cursor: string, limit: nat, page: seq<string>, id: string)
    requires IsPage(cs, owner, cursor, limit, page) && id in Remaining(cs, owner, cursor) && id !in page
    ensures page != [] ==> Before(NextCursor(page), id)
    ensures limit > 0 ==> page != []
  {
    hide Before, Remaining;
    if page != [] {
      assert page[|page| - 1] in page;
    }
  }

  /** Until it is listed, a creature owned throughout stays ahead of the cursor. */
  lemma {:induction false} StaysAhead(css: seq<Collection>, owner: string, limit: nat, pages: seq<seq<string>>, id: string, k: nat)
    requires Traversal(css, owner, limit, pages) && OwnedThroughout(css, owner, id) && id != "" && k < |pages|
    requires forall j :: 0 <= j < k ==> id !in pages[j]
    ensures id in Remaining(css[k], owner, CursorAt(pages, k))
  {
    hide Before, IsPage, Traversal;
    PageOf(css, owner, limit, pages, k);
    if k == 0 {
      NothingBeforeEmpty(id);
    } else {
      StaysAhead(css, owner, limit, pages, id, k - 1);
      PageOf(css, owner, limit, pages, k - 1);
      SkippedIsAhead(css[k - 1], owner, CursorAt(pages, k - 1), limit, pages[k - 1], id);
    }
  }

  lemma PageOf(css: seq<Collection>, owner: string, limit: nat, pages: seq<seq<string>>, k: nat)
    requires Traversal(css, owner, limit, pages) && k < |pages|
    ensures |css| == |pages| && IsPage(css[k], owner, CursorAt(pages, k), limit, pages[k])
    ensures k < |pages| - 1 ==> pages[k] != []
  {
    hide IsPage;
  }

  lemma NothingBeforeEmpty(id: string)
    ensures Before("", id) <==> id != ""
  {
  }

  /** The traversal cannot end before the creature is listed. */
  lemma NotYetDone(css: seq<Collection>, owner: string, limit: nat, pages: seq<seq<string>>, id: string, n: nat)
    requires Traversal(css, owner, limit, pages) && OwnedThroughout(css, owner, id) && id != "" && n < |pages| && limit > 0
    requires forall j :: 0 <= j < n ==> id !in pages[j]
    ensures pages[n] != []
  {
    hide Before, IsPage, Remaining;
    StaysAhead(css, owner, limit, pages, id, n);
    if id !in pages[n] {
      SkippedIsAhead(css[n], owner, CursorAt(pages, n), limit, pages[n], id);
    }
  }

  lemma EmptyNeverListed(cs: Collection, owner: string, cursor: string, limit: nat, page: seq<string>)
    requires IsPage(cs, owner, cursor, limit, page)
    ensures "" !in page
  {
    assert "" !in Remaining(cs, owner, cursor);
  }

  ghost predicate ListedOnce(pages: seq<seq<string>>, id: string) {
    exists k :: 0 <= k < |pages| && id in pages[k] && forall l :: 0 <= l < |pages| && id in pages[l] ==> l == k
  }

  /** Following the cursors from "" until an empty page lists a creature owned throughout exactly
      once, if and only if its id is not the empty string, whatever else is added or removed. */
  lemma ListedExactlyOnce(css: seq<Collection>, owner: string, limit: nat, pages: seq<seq<string>>, id: string)
    requires Complete(css, owner, limit, pages) && OwnedThroughout(css, owner, id) && limit > 0
    ensures ListedOnce(pages, id) <==> id != ""
  {
    hide Before, IsPage, Traversal, OwnedThroughout;
    if id == "" {
      forall k | 0 <= k < |pages| ensures id !in pages[k] {
        PageOf(css, owner, limit, pages, k);
        EmptyNeverListed(css[k], owner, CursorAt(pages, k), limit, pages[k]);
      }
    } else {
      var n := |pages| - 1;
      if forall j :: 0 <= j < n ==> id !in pages[j] {
        NotYetDone(css, owner, limit, pages, id, n);
      }
      var k :| 0 <= k < |pages| && id in pages[k];
      forall l | 0 <= l < |pages| && id in pages[l] ensures l == k {
        BeforeIrreflexive(id);
        if l < k {
          IdsIncrease(css, owner, limit, pages, l, k, id, id);
        } else if k < l {
          IdsIncrease(css, owner, limit, pages, k, l, id, id);
        }
      }
    }
  }

  // ----- A collection at rest -----

  /** A client that follows the cursors of an unchanging collection until an empty page: it stops,
      and has read the whole of the owner's collection in order. */
  method ListAll(repo: MemRepo, owner: string, limit: int) returns (ids: seq<string>)
    ensures Increasing(ids)
    ensures forall id :: id in ids <==> id in repo.creatures && repo.creatures[id].ownerID == owner && id != ""
  {
    hide Before, IsPage;
    ids := [];
    var cursor := "";
    forall id ensures Before("", id) <==> id != "" {
      NothingBeforeEmpty(id);
    }
    var page, next := List(repo, owner, cursor, limit);
    while page != []
      invariant IsPage(repo.creatures, owner, cursor, PageSize(limit), page) && next == NextCursor(page)
      invariant Increasing(ids) && forall x :: x in ids ==> x == cursor || Before(x, cursor)
      invariant forall id :: id in Remaining(repo.creatures, owner, "") <==> id in ids || id in Remaining(repo.creatures, owner, cursor)
      decreases Remaining(repo.creatures, owner, cursor)
    {
      PageAdvances(repo.creatures, owner, cursor, PageSize(limit), page);
      AppendPage(repo.creatures, owner, cursor, PageSize(limit), ids, page);
      ids := ids + page;
      cursor := next;
      page, next := List(repo, owner, cursor, limit);
    }
    EmptyPageMeansDone(repo.creatures, owner, cursor, PageSize(limit));
  }

  lemma EmptyPageMeansDone(cs: Collection, owner: string, cursor: string, limit: nat)
    requires IsPage(cs, owner, cursor, limit, []) && limit > 0
    ensures Remaining(cs, owner, cursor) == {}
  {
    hide Before;
    forall id ensures id !in Remaining(cs, owner, cursor) {
      if id in Remaining(cs, owner, cursor) {
        SkippedIsAhead(cs, owner, cursor, limit, [], id);
      }
    }
  }

  /** A non-empty page splits what remains into itself and what remains after its last id. */
  lemma PageAdvances(cs: Collection, owner: string, cursor: string, limit: nat, page: seq<string>)
    requires IsPage(cs, owner, cursor, limit, page) && page != []
    ensures forall id :: id in Remaining(cs, owner, cursor) <==> id in page || id in Remaining(cs, owner, NextCursor(page))
    ensures Remaining(cs, owner, NextCursor(page)) < Remaining(cs, owner, cursor)
  {
    hide Before;
    var last := NextCursor(page);
    assert last == page[|page| - 1] && last in page;
    PageReachesCursor(cs, owner, cursor, limit, page, last);
    forall id | id in Remaining(cs, owner, last) ensures id in Remaining(cs, owner, cursor) {
      BeforeTransitive(cursor, last, id);
    }
    forall id | id in Remaining(cs, owner, cursor) && id !in page ensures id in Remaining(cs, owner, last) {
      SkippedIsAhead(cs, owner, cursor, limit, page, id);
    }
    BeforeIrreflexive(last);
    assert last in Remaining(cs, owner, cursor) && last !in Remaining(cs, owner, last);
  }

  lemma AppendPage(cs: Collection, owner: string, cursor: string, limit: nat, ids: seq<string>, page: seq<string>)
    requires IsPage(cs, owner, cursor, limit, page) && page != []
    requires Increasing(ids) && forall x :: x in ids ==> x == cursor || Before(x, cursor)
    ensures Increasing(ids + page)
    ensures forall x :: x in ids + page ==> x == NextCursor(page) || Before(x, NextCursor(page))
  {
    hide Before, Remaining;
    forall x, y | x in ids && y in page ensures Before(x, y) {
      PageReachesCursor(cs, owner, cursor, limit, page, y);
      if x != cursor {
        BeforeTransitive(x, cursor, y);
      }
    }
    var all := ids + page;
    forall i, j | 0 <= i < j < |all| ensures Before(all[i], all[j]) {
      if i < |ids| && j >= |ids| {
        assert all[i] in ids && all[j] in page;
      }
    }
    forall x | x in all ensures x == NextCursor(page) || Before(x, NextCursor(page)) {
      assert NextCursor(page) in page;
      if x in page {
        PageReachesCursor(cs, owner, cursor, limit, page, x);
      }
    }
  }

  // ----- The order and the page size -----

  /** Where two strings first differ, or where the shorter ends. */
  predicate Parts(a: string, b: string, n: nat) {
    n <= |a| && n <= |b| && a[..n] == b[..n] && (n == |a| || n == |b| || a[n] != b[n])
  }

  /** Strings are ordered by the first character in which they differ, and a proper beginning of a
      string comes before it. */
  lemma {:induction false} OrderLaw(a: string, b: string, n: nat)
    requires Parts(a, b, n)
    ensures Before(a, b) <==> n < |b| && (n == |a| || a[n] < b[n])
    decreases n
  {
    if n > 0 {
      assert a[0] == a[..n][0] == b[..n][0] == b[0];
      assert a[1..][..n - 1] == a[..n][1..] && b[1..][..n - 1] == b[..n][1..];
      OrderLaw(a[1..], b[1..], n - 1);
    }
  }

  /** A page holds, in order and up to its limit, creatures of that owner after the cursor, and
      passes over none of them: one it leaves out comes after all it holds, and it is full. */
  lemma PageLaw(cs: Collection, owner: string, cursor: string, limit: nat, page: seq<string>, id: string)
    requires IsPage(cs, owner, cursor, limit, page)
    ensures |page| <= limit && forall i, j :: 0 <= i < j < |page| ==> Before(page[i], page[j])
    ensures id in page ==> id in cs && cs[id].ownerID == owner && Before(cursor, id)
    ensures id in cs && cs[id].ownerID == owner && Before(cursor, id) && id !in page ==>
      |page| == limit && forall i :: 0 <= i < |page| ==> Before(page[i], id)
  {
    hide Before;
  }

  /** A page size from 1 to 100 is kept, and any other becomes 50. */
  lemma PageSizeLaw(limit: int)
    ensures PageSize(limit) == if 1 <= limit <= 100 then limit else 50
  {
  }
}
