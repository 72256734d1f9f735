// Key-cursor pagination: what following the continue tokens returns, on lists
// that change between pages and on the lists the store really delivers.
module Pagination {
  import opened Options
  import opened Json
  import opened Storage
  import opened Order

  /** The first entry at or after the cursor. */
  function Position(entries: seq<Entry>, cursor: string): (i: nat)
    ensures i <= |entries| && forall j :: 0 <= j < i ==> Less(entries[j].key, cursor)
    ensures i < |entries| ==> !Less(entries[i].key, cursor)
  {
    if entries == [] then 0 else
    if !Less(entries[0].key, cursor) then 0 else 1 + Position(entries[1..], cursor)
  }

  /** `paginate`: one page and the token for the next; the empty token means start, and end. */
  function Paginate(entries: seq<Entry>, limit: int, token: string): (seq<Entry>, string) {
    var start := if token != "" then Position(entries, token) else 0;
    var end := if limit > 0 && start + limit < |entries| then start + limit else |entries|;
    (entries[start..end], if end < |entries| then entries[end].key else "")
  }

  // --- Following the tokens -------------------------------------------------------------------

  /** The token after `n` pages, when page `i` is cut from the list as it is then. */
  ghost function TokenAfter(lists: nat -> seq<Entry>, limit: int, n: nat): string {
    if n == 0 then "" else Paginate(lists(n - 1), limit, TokenAfter(lists, limit, n - 1)).1
  }

  ghost function Page(lists: nat -> seq<Entry>, limit: int, n: nat): seq<Entry> {
    Paginate(lists(n), limit, TokenAfter(lists, limit, n)).0
  }

  /** Everything returned by the first `n` pages. */
  ghost function Collected(lists: nat -> seq<Entry>, limit: int, n: nat): seq<Entry> {
    if n == 0 then [] else Collected(lists, limit, n - 1) + Page(lists, limit, n - 1)
  }

  /** The client asks for page after page while there is a token. */
  ghost predicate Follows(lists: nat -> seq<Entry>, limit: int, n: nat) {
    forall i: nat :: 0 < i < n ==> TokenAfter(lists, limit, i) != ""
  }

  ghost predicate KeySorted(entries: seq<Entry>) {
    && (forall i, j :: 0 <= i < j < |entries| ==> Less(entries[i].key, entries[j].key))
    && forall i :: 0 <= i < |entries| ==> entries[i].key != ""
  }

  ghost predicate HasKey(entries: seq<Entry>, key: string) {
    exists i :: 0 <= i < |entries| && entries[i].key == key
  }

  /** Everything collected so far lies before the token, and so far nothing that stays is missed. */
  ghost predicate Progressed(lists: nat -> seq<Entry>, limit: int, n: nat) {
    var token := TokenAfter(lists, limit, n);
    var got := Collected(lists, limit, n);
    && KeySorted(got)
    && (token != "" ==> forall i :: 0 <= i < |got| ==> Less(got[i].key, token))
    && (forall key :: (n > 0 && (token == "" || Less(key, token)) && InAll(lists, n, key)) ==> HasKey(got, key))
  }

  ghost predicate InAll(lists: nat -> seq<Entry>, n: nat, key: string) {
    forall i: nat :: i < n ==> HasKey(lists(i), key)
  }

  /** At or after the token, and before the next. */
  predicate Between(key: string, token: string, next: string) {
    (token == "" || !Less(key, token)) && (next == "" || Less(key, next))
  }

  lemma PageIsAhead(entries: seq<Entry>, limit: int, token: string)
    requires KeySorted(entries) && limit > 0
    ensures
      var (page, next) := Paginate(entries, limit, token);
      && KeySorted(page)
      && (token != "" ==> forall i :: 0 <= i < |page| ==> !Less(page[i].key, token))
      && (next != "" ==> forall i :: 0 <= i < |page| ==> Less(page[i].key, next))
      && (forall key :: HasKey(entries, key) && Between(key, token, next) ==> HasKey(page, key))
      && (next != "" && token != "" ==> |page| > 0)
  {
    hide Position, HasKey, Less;
    var (page, next) := Paginate(entries, limit, token);
    var start := if token != "" then Position(entries, token) else 0;
    var end := start + |page|;
    forall i, j | 0 <= i < j < |page| ensures Less(page[i].key, page[j].key) {
      assert page[i] == entries[start + i] && page[j] == entries[start + j];
    }
    forall i | 0 <= i < |page| && token != "" ensures !Less(page[i].key, token) {
      NotBefore(entries, token, start + i);
    }
    forall key | HasKey(entries, key) && Between(key, token, next)
      ensures HasKey(page, key)
    {
      PageHasKey(entries, start, end, token, next, key);
    }
  }

  /** A page has every key of the list between its token and the next. */
  lemma PageHasKey(entries: seq<Entry>, start: nat, end: nat, token: string, next: string, key: string)
    requires KeySorted(entries) && start <= end <= |entries| && HasKey(entries, key)
    requires next == if end < |entries| then entries[end].key else ""
    requires if token == "" then start == 0 else start == Position(entries, token) && !Less(key, token)
    requires next == "" || Less(key, next)
    ensures HasKey(entries[start..end], key)
  {
    hide Position, Less, KeySorted;
    var i :| 0 <= i < |entries| && entries[i].key == key;
    if end < |entries| {
      KeyIsNotEmpty(entries, end);
      LessComesBefore(entries, i, end);
    }
    assert start <= i < end;
    assert entries[start..end][i - start] == entries[i];
  }

  lemma KeyIsNotEmpty(entries: seq<Entry>, i: nat)
    requires KeySorted(entries) && i < |entries|
    ensures entries[i].key != ""
  {
  }

  lemma LessComesBefore(entries: seq<Entry>, i: nat, j: nat)
    requires KeySorted(entries) && i < |entries| && j < |entries| && Less(entries[i].key, entries[j].key)
    ensures i < j
  {
    hide Less;
    LessIsTotal(entries[i].key, entries[j].key);
    LessIsTotal(entries[j].key, entries[i].key);
  }

  /** From its position on, nothing lies before the cursor. */
  lemma NotBefore(entries: seq<Entry>, cursor: string, i: nat)
    requires KeySorted(entries) && Position(entries, cursor) <= i < |entries|
    ensures !Less(entries[i].key, cursor)
  {
    hide Position, Less;
    var at := Position(entries, cursor);
    if at < i && Less(entries[i].key, cursor) {
      LessIsTransitive(entries[at].key, entries[i].key, cursor);
    }
  }

  lemma SortedConcat(a: seq<Entry>, b: seq<Entry>, token: string)
    requires KeySorted(a) && KeySorted(b)
    requires forall i :: 0 <= i < |a| ==> Less(a[i].key, token)
    requires forall i :: 0 <= i < |b| ==> !Less(b[i].key, token)
    ensures KeySorted(a + b)
  {
    hide Less;
    forall i, j | 0 <= i < |a| && 0 <= j < |b| ensures Less(a[i].key, b[j].key) {
      LessIsTotal(b[j].key, token);
      if b[j].key != token {
        LessIsTransitive(a[i].key, token, b[j].key);
      }
    }
  }

  lemma HasKeyConcat(a: seq<Entry>, b: seq<Entry>, key: string)
    ensures HasKey(a + b, key) <==> HasKey(a, key) || HasKey(b, key)
  {
    if HasKey(a, key) {
      var i :| 0 <= i < |a| && a[i].key == key;
      assert (a + b)[i].key == key;
    }
    if HasKey(b, key) {
      var i :| 0 <= i < |b| && b[i].key == key;
      assert (a + b)[|a| + i].key == key;
    }
  }

  lemma {:induction false} Progresses(lists: nat -> seq<Entry>, limit: int, n: nat)
    requires limit > 0 && Follows(lists, limit, n) && forall i: nat :: i < n ==> KeySorted(lists(i))
    ensures Progressed(lists, limit, n)
  {
    hide Paginate, KeySorted, HasKey;
    if n == 0 {
      NothingIsSorted();
    } else {
      Progresses(lists, limit, n - 1);
      ProgressStep(lists, limit, n - 1);
    }
  }

  lemma NothingIsSorted()
    ensures KeySorted([])
  {
  }

  lemma ProgressStep(lists: nat -> seq<Entry>, limit: int, n: nat)
    requires limit > 0 && Progressed(lists, limit, n) && KeySorted(lists(n))
    requires n > 0 ==> TokenAfter(lists, limit, n) != ""
    ensures Progressed(lists, limit, n + 1)
  {
    hide Paginate, KeySorted, HasKey, Position, Less;
    var token, next := TokenAfter(lists, limit, n), TokenAfter(lists, limit, n + 1);
    var got, page := Collected(lists, limit, n), Page(lists, limit, n);
    PageIsAhead(lists(n), limit, token);
    if n == 0 {
      assert got + page == page;
    } else {
      SortedConcat(got, page, token);
      if next != "" {
        forall i | 0 <= i < |got| ensures Less(got[i].key, next) {
          LessIsTransitiveVia(got[i].key, token, page, next);
        }
      }
    }
    forall key | (next == "" || Less(key, next)) && InAll(lists, n + 1, key) ensures HasKey(got + page, key) {
      assert InAll(lists, n, key) && HasKey(lists(n), key);
      HasKeyConcat(got, page, key);
      LessIsTotal(key, token);
    }
  }

  lemma LessIsTransitiveVia(key: string, token: string, page: seq<Entry>, next: string)
    requires Less(key, token) && |page| > 0 && !Less(page[0].key, token) && Less(page[0].key, next)
    ensures Less(key, next)
  {
    hide Less;
    LessIsTotal(page[0].key, token);
    if page[0].key != token {
      LessIsTransitive(key, token, page[0].key);
    }
    LessIsTransitive(key, page[0].key, next);
  }

  /**
   * Completeness over key-sorted lists that may change between pages: the pages
   * carry strictly increasing keys, so none twice, and once a page comes without
   * a token every key that was in all the lists has been returned.
   */
  lemma PagesAreComplete(lists: nat -> seq<Entry>, limit: int, n: nat)
    requires limit > 0 && n > 0 && Follows(lists, limit, n) && forall i: nat :: i < n ==> KeySorted(lists(i))
    ensures KeySorted(Collected(lists, limit, n))
    ensures TokenAfter(lists, limit, n) == "" ==>
      forall key :: InAll(lists, n, key) ==> HasKey(Collected(lists, limit, n), key)
  {
    Progresses(lists, limit, n);
  }

  // --- A list that does not change ----------------------------------------------------------------

  function Min(a: nat, b: nat): nat {
    if a <= b then a else b
  }

  /** Wherever a page begins, every earlier key is smaller. */
  ghost predicate SortedAtBoundaries(entries: seq<Entry>, limit: nat) {
    forall i: nat, j: nat :: j < i * limit < |entries| ==> Less(entries[j].key, entries[i * limit].key)
  }

  ghost predicate DistinctKeys(entries: seq<Entry>) {
    && (forall i, j :: 0 <= i < j < |entries| ==> entries[i].key != entries[j].key)
    && forall i :: 0 <= i < |entries| ==> entries[i].key != ""
  }

  /** The `i`-th slice of `limit` entries. */
  function Slice(entries: seq<Entry>, limit: nat, i: nat): seq<Entry>
    requires i * limit <= |entries|
  {
    entries[i * limit..Min(i * limit + limit, |entries|)]
  }

  /** Following the tokens returns the list itself, slice by slice, and then stops. */
  ghost predicate ReturnsTheList(entries: seq<Entry>, limit: nat) {
    forall i: nat :: i * limit < |entries| ==>
      && Page(_ => entries, limit, i) == Slice(entries, limit, i)
      && (TokenAfter(_ => entries, limit, i + 1) == "" <==> (i + 1) * limit >= |entries|)
  }

  /** The token after a whole number of slices. */
  ghost function BoundaryToken(entries: seq<Entry>, limit: nat, i: nat): string {
    if i > 0 && i * limit < |entries| then entries[i * limit].key else ""
  }

  lemma {:induction false} TokensAtBoundaries(entries: seq<Entry>, limit: nat, n: nat)
    requires limit > 0 && DistinctKeys(entries) && n * limit < |entries|
    requires forall i: nat, j: nat :: i <= n && j < i * limit < |entries| ==>
      Less(entries[j].key, entries[i * limit].key)
    ensures TokenAfter(_ => entries, limit, n) == BoundaryToken(entries, limit, n)
    ensures Paginate(entries, limit, TokenAfter(_ => entries, limit, n)) ==
      (Slice(entries, limit, n), BoundaryToken(entries, limit, n + 1))
  {
    hide Paginate, Position;
    assert n * limit + limit == (n + 1) * limit;
    if n > 0 {
      assert (n - 1) * limit + limit == n * limit;
      TokensAtBoundaries(entries, limit, n - 1);
      BoundaryPosition(entries, n * limit);
    }
    PageFrom(entries, limit, TokenAfter(_ => entries, limit, n), n * limit);
  }

  lemma PageFrom(entries: seq<Entry>, limit: nat, token: string, at: nat)
    requires limit > 0 && at <= |entries| && (if token != "" then Position(entries, token) else 0) == at
    ensures Paginate(entries, limit, token) ==
      (entries[at..Min(at + limit, |entries|)], if at + limit < |entries| then entries[at + limit].key else "")
  {
  }

  lemma BoundaryPosition(entries: seq<Entry>, at: nat)
    requires at < |entries| && forall j :: 0 <= j < at ==> Less(entries[j].key, entries[at].key)
    ensures Position(entries, entries[at].key) == at
  {
    hide Less;
    LessIsTotal(entries[at].key, entries[at].key);
    var p := Position(entries, entries[at].key);
  }

  /**
   * On a list that does not change, whatever its order: the pages are the list
   * itself, cut every `limit` entries, exactly when wherever a page begins every
   * earlier key is smaller. The store's lists are in revision order, so this is
   * up to the history of writes.
   */
  lemma ReturnsTheListExactly(entries: seq<Entry>, limit: nat)
    requires limit > 0 && DistinctKeys(entries)
    ensures ReturnsTheList(entries, limit) <==> SortedAtBoundaries(entries, limit)
  {
    hide Paginate, Position;
    if SortedAtBoundaries(entries, limit) {
      forall i: nat | i * limit < |entries|
        ensures Page(_ => entries, limit, i) == Slice(entries, limit, i)
        ensures TokenAfter(_ => entries, limit, i + 1) == "" <==> (i + 1) * limit >= |entries|
      {
        TokensAtBoundaries(entries, limit, i);
        AfterIs(entries, limit, i);
      }
    } else if ReturnsTheList(entries, limit) {
      var i: nat, j: nat :| j < i * limit < |entries| && !Less(entries[j].key, entries[i * limit].key);
      BoundaryOfReturned(entries, limit, i, j);
    }
  }

  lemma AfterIs(entries: seq<Entry>, limit: nat, i: nat)
    ensures TokenAfter(_ => entries, limit, i + 1) == Paginate(entries, limit, TokenAfter(_ => entries, limit, i)).1
    ensures Page(_ => entries, limit, i) == Paginate(entries, limit, TokenAfter(_ => entries, limit, i)).0
  {
  }

  /** A page that begins at a boundary was found there, so every earlier key is smaller. */
  lemma BoundaryOfReturned(entries: seq<Entry>, limit: nat, i: nat, j: nat)
    requires limit > 0 && DistinctKeys(entries) && ReturnsTheList(entries, limit) && j < i * limit < |entries|
    ensures Less(entries[j].key, entries[i * limit].key)
  {
    hide Paginate, Position, TokenAfter, Page, ReturnsTheList;
    assert i > 0;
    assert (i - 1) * limit + limit == i * limit;
    var before := TokenAfter(_ => entries, limit, i - 1);
    var token := TokenAfter(_ => entries, limit, i);
    ReturnedAt(entries, limit, i - 1);
    ReturnedAt(entries, limit, i);
    AfterIs(entries, limit, i - 1);
    AfterIs(entries, limit, i);
    PageStart(entries, limit, before, (i - 1) * limit);
    PageStart(entries, limit, token, i * limit);
    assert token == entries[i * limit].key != "";
  }

  lemma ReturnedAt(entries: seq<Entry>, limit: nat, i: nat)
    requires ReturnsTheList(entries, limit) && i * limit < |entries|
    ensures Page(_ => entries, limit, i) == Slice(entries, limit, i)
    ensures TokenAfter(_ => entries, limit, i + 1) == "" <==> (i + 1) * limit >= |entries|
  {
  }

  /** A full page that equals a slice starts where the slice does. */
  lemma PageStart(entries: seq<Entry>, limit: nat, token: string, at: nat)
    requires limit > 0 && DistinctKeys(entries) && at < |entries|
    requires Paginate(entries, limit, token).0 == entries[at..Min(at + limit, |entries|)]
    ensures (if token != "" then Position(entries, token) else 0) == at
    ensures Paginate(entries, limit, token).1 == if at + limit < |entries| then entries[at + limit].key else ""
  {
    hide Position, Less;
    var start := if token != "" then Position(entries, token) else 0;
    var page := Paginate(entries, limit, token).0;
    assert page[0] == entries[at];
    assert |page| > 0 && start < |entries| && page[0] == entries[start];
  }

  /** A key-sorted list is sorted at its boundaries, so it comes back in `ceil(n / limit)` pages. */
  lemma SortedListComesBack(entries: seq<Entry>, limit: nat)
    requires limit > 0 && KeySorted(entries)
    ensures ReturnsTheList(entries, limit)
    ensures entries == [] ==> Paginate(entries, limit, "") == ([], "")
  {
    forall i, j | 0 <= i < j < |entries| ensures entries[i].key != entries[j].key {
      LessIsTotal(entries[i].key, entries[j].key);
    }
    ReturnsTheListExactly(entries, limit);
  }

  /** Page after page of a list whose second entry has the smaller key is the first entry. */
  lemma {:induction false} FirstPageAgain(lists: nat -> seq<Entry>, first: Entry, second: Entry, n: nat)
    requires forall i :: lists(i) == [first, second]
    requires second.key != "" && Less(second.key, first.key) && n > 0
    ensures TokenAfter(lists, 1, n) == second.key && Page(lists, 1, n) == [first]
  {
    var entries := [first, second];
    LessIsTotal(first.key, second.key);
    assert entries[0..1] == [first];
    if n > 1 {
      FirstPageAgain(lists, first, second, n - 1);
    } else {
      assert Paginate(entries, 1, "") == ([first], second.key);
    }
    assert Paginate(entries, 1, second.key) == ([first], second.key);
  }

  /** Two creates, the larger path first. */
  function TwoCreates(late: Key, x: Value, early: Key, y: Value): seq<Op> {
    [DoCreate(late, x), DoCreate(early, y)]
  }

  /** The only list in revision order that the store can deliver after them. */
  lemma ListingOfTwo(prefix: KeyPrefix, late: Key, x: Value, early: Key, y: Value, listed: seq<Entry>)
    requires late.IsValid() && early.IsValid() && late.AsPath() != early.AsPath()
    requires prefix.Covers(late.AsPath()) && prefix.Covers(early.AsPath())
    requires IsListing(prefix, ApplyAll(TwoCreates(late, x, early, y)).entries, listed) && RevisionOrdered(listed)
    ensures listed == [Entry(late.AsPath(), x, 1, 1, 1), Entry(early.AsPath(), y, 2, 2, 1)]
  {
    hide KeyPrefix.Covers, Key.AsPath;
    var ops := TwoCreates(late, x, early, y);
    var first, second := Entry(late.AsPath(), x, 1, 1, 1), Entry(early.AsPath(), y, 2, 2, 1);
    var entries := ApplyAll(ops).entries;
    AfterTwo(late, x, early, y);
    var i :| 0 <= i < |listed| && listed[i].key == late.AsPath();
    var j :| 0 <= j < |listed| && listed[j].key == early.AsPath();
    assert listed[i] == first && listed[j] == second;
    forall k: nat | k < |listed| ensures Either(k, i, j) {
      assert listed[k].key in entries;
    }
    assert Either(0, i, j) && Either(1, i, j);
    AtMostTwo(|listed|, i, j);
  }

  predicate Either(k: nat, i: nat, j: nat) {
    k == i || k == j
  }

  lemma AtMostTwo(n: nat, i: nat, j: nat)
    requires forall k: nat :: k < n ==> Either(k, i, j)
    ensures n <= 2
  {
    var k := if !Either(0, i, j) then 0 else if !Either(1, i, j) then 1 else 2;
    assert !Either(k, i, j);
  }

  lemma AfterTwo(late: Key, x: Value, early: Key, y: Value)
    requires late.IsValid() && early.IsValid() && late.AsPath() != early.AsPath()
    ensures
      ApplyAll(TwoCreates(late, x, early, y)).entries
      == map[late.AsPath() := Entry(late.AsPath(), x, 1, 1, 1), early.AsPath() := Entry(early.AsPath(), y, 2, 2, 1)]
  {
    hide Key.AsPath;
    var ops := TwoCreates(late, x, early, y);
    assert ops[..1] == [DoCreate(late, x)] && ops[..1][..0] == [];
    assert ApplyAll(ops[..1]) == Apply(EMPTY_STORE, DoCreate(late, x));
    assert ApplyAll(ops) == Apply(ApplyAll(ops[..1]), DoCreate(early, y));
  }

  /**
   * The store lists in revision order, so a walk over it can go on for ever: of
   * two objects the one with the smaller path is created last, and on whatever
   * lists the store then delivers page after page returns the first, and the
   * second never comes.
   */
  lemma WalkNeverEnds(prefix: KeyPrefix, late: Key, x: Value, early: Key, y: Value, lists: nat -> seq<Entry>, n: nat)
    requires late.IsValid() && early.IsValid() && Less(early.AsPath(), late.AsPath())
    requires prefix.Covers(late.AsPath()) && prefix.Covers(early.AsPath())
    requires
      var s := ApplyAll(TwoCreates(late, x, early, y));
      forall i :: IsListing(prefix, s.entries, lists(i)) && RevisionOrdered(lists(i))
    requires n > 0
    ensures TokenAfter(lists, 1, n) == early.AsPath()
    ensures Page(lists, 1, n) == [Entry(late.AsPath(), x, 1, 1, 1)]
  {
    hide KeyPrefix.Covers, Key.AsPath, Less, IsListing, RevisionOrdered, ApplyAll;
    var first, second := Entry(late.AsPath(), x, 1, 1, 1), Entry(early.AsPath(), y, 2, 2, 1);
    LessIsTotal(early.AsPath(), late.AsPath());
    forall i: nat ensures lists(i) == [first, second] {
      ListingOfTwo(prefix, late, x, early, y, lists(i));
    }
    PathIsNotEmpty(early);
    FirstPageAgain(lists, first, second, n);
  }

  lemma PathIsNotEmpty(key: Key)
    ensures key.AsPath() != ""
  {
  }

  /** For instance over the pods of all namespaces after the creates of `b` and `a`. */
  lemma PodsWalkNeverEnds(x: Value, y: Value, lists: nat -> seq<Entry>, n: nat)
    requires
      var b, a := Key("", "pods", "default", "b"), Key("", "pods", "default", "a");
      var s := ApplyAll(TwoCreates(b, x, a, y));
      forall i :: IsListing(KeyPrefix("", "pods", None), s.entries, lists(i)) && RevisionOrdered(lists(i))
    requires n > 0
    ensures TokenAfter(lists, 1, n) == Key("", "pods", "default", "a").AsPath()
    ensures Page(lists, 1, n) == [Entry(Key("", "pods", "default", "b").AsPath(), x, 1, 1, 1)]
  {
    hide IsListing, RevisionOrdered, ApplyAll, TokenAfter, Page, Key.AsPath, KeyPrefix.Covers;
    var prefix := KeyPrefix("", "pods", None);
    var b, a := Key("", "pods", "default", "b"), Key("", "pods", "default", "a");
    SiblingPaths("pods", "default", "a", "b");
    WalkNeverEnds(prefix, b, x, a, y, lists, n);
  }

  /** Paths in one namespace are ordered as the names, and covered by the collection of all namespaces. */
  lemma SiblingPaths(resource: string, ns: string, name: string, other: string)
    requires ns != ""
    ensures
      var a, b := Key("", resource, ns, name).AsPath(), Key("", resource, ns, other).AsPath();
      && (Less(a, b) <==> Less(name, other))
      && KeyPrefix("", resource, None).Covers(a) && KeyPrefix("", resource, None).Covers(b)
  {
    hide Less;
    var base := "/registry/" + resource + "/";
    var dir := base + (ns + "/");
    LessByParts(dir, dir, name, other);
    LessIsTotal(dir, dir);
    assert Key("", resource, ns, name).AsPath() == dir + name && Key("", resource, ns, other).AsPath() == dir + other;
    assert KeyPrefix("", resource, None).AsPath() + "/" == base;
    assert (dir + name)[..|base|] == base && (dir + other)[..|base|] == base;
  }

  /** Without a limit a page is all there is from its token on, and the last. */
  lemma NoLimitIsWhole(entries: seq<Entry>, limit: int, token: string)
    requires limit <= 0
    ensures
      var (page, next) := Paginate(entries, limit, token);
      && next == "" && (token == "" ==> page == entries)
      && (forall e :: e in entries && !Less(e.key, token) && KeySorted(entries) ==> e in page)
  {
    hide Less;
    if token != "" && KeySorted(entries) {
      var p := Position(entries, token);
      forall e | e in entries && !Less(e.key, token) ensures e in entries[p..] {
        var i :| 0 <= i < |entries| && entries[i] == e;
        assert i >= p;
        assert entries[p..][i - p] == e;
      }
    }
  }
}
