/** The customer list page: a case-insensitive search over four fields,
    then pages of ten with Previous/Next navigation. */
module UserList {
  import opened Wrappers
  import opened JsString

  /** A customer row as the page receives it; any field may be missing. */
  datatype Row = Row(user: Option<string>, phoneNo: Option<string>, location: Option<string>, uuid: Option<string>)

  const UsersPerPage: nat := 10

  /** `(x || '').toLowerCase().includes(term.toLowerCase())`. */
  predicate FieldMatches(field: Option<string>, term: string) {
    Includes(Lower(Or(field, "")), Lower(term))
  }

  /** The filter's test: the term occurs, ignoring case, in the name, the
      phone number, the location or the uuid. */
  predicate Matches(u: Row, term: string) {
    FieldMatches(u.user, term) || FieldMatches(u.phoneNo, term) ||
    FieldMatches(u.location, term) || FieldMatches(u.uuid, term)
  }

  /** `users.filter(...)`: the matching rows, in their original order. */
  function FilterUsers(users: seq<Row>, term: string): (r: seq<Row>)
    ensures |r| <= |users|
    ensures forall u :: u in r ==> u in users && Matches(u, term)
    ensures forall u :: u in users && Matches(u, term) ==> u in r
  {
    if users == [] then []
    else (if Matches(users[0], term) then [users[0]] else []) + FilterUsers(users[1..], term)
  }

  /** Filtering a concatenation filters each part and keeps their order. */
  lemma {:induction false} FilterAppend(a: seq<Row>, b: seq<Row>, term: string)
    ensures FilterUsers(a + b, term) == FilterUsers(a, term) + FilterUsers(b, term)
  {
    if a != [] {
      var head := if Matches(a[0], term) then [a[0]] else [];
      assert (a + b)[0] == a[0];
      assert (a + b)[1..] == a[1..] + b;
      assert FilterUsers(a + b, term) == head + FilterUsers(a[1..] + b, term);
      FilterAppend(a[1..], b, term);
      assert FilterUsers(a, term) == head + FilterUsers(a[1..], term);
    } else {
      assert a + b == b;
    }
  }

  /** An empty search keeps every row, in order. */
  lemma {:induction false} EmptySearchKeepsAll(users: seq<Row>)
    ensures FilterUsers(users, "") == users
  {
    if users != [] {
      IncludesEmpty(Lower(Or(users[0].user, "")));
      EmptySearchKeepsAll(users[1..]);
    }
  }

  /** `Math.ceil(n / usersPerPage)`. */
  function TotalPages(n: nat): (t: nat)
    ensures t * UsersPerPage >= n
    ensures t == 0 || (t - 1) * UsersPerPage < n
  {
    (n + UsersPerPage - 1) / UsersPerPage
  }

  /** `Array.prototype.slice`'s reading of an index: negative counts from the end. */
  function SliceIndex(i: int, len: nat): (k: nat)
    ensures k <= len
  {
    if i < 0 then (if len + i < 0 then 0 else len + i) else if i > len then len else i
  }

  /** `s.slice(start, end)`. */
  function Slice<T>(s: seq<T>, start: int, end: int): (r: seq<T>)
    ensures |r| <= |s|
    ensures 0 <= start <= end <= |s| ==> r == s[start..end]
    ensures 0 <= end <= start ==> r == []
  {
    var a, b := SliceIndex(start, |s|), SliceIndex(end, |s|);
    if a < b then s[a..b] else []
  }

  /** The rows shown on page `page`: `filtered.slice(page * 10 - 10, page * 10)`. */
  function CurrentPage(filtered: seq<Row>, page: int): (r: seq<Row>)
    ensures |r| <= UsersPerPage
  {
    Slice(filtered, page * UsersPerPage - UsersPerPage, page * UsersPerPage)
  }

  function Min(a: int, b: int): int {
    if a < b then a else b
  }

  /** Page `page` (counting from 1) is the window of rows from
      `(page - 1) * 10` up to `page * 10`, cut at the end of the list. */
  lemma PageIsWindow(filtered: seq<Row>, page: int)
    requires page >= 1
    ensures Min((page - 1) * UsersPerPage, |filtered|) <= Min(page * UsersPerPage, |filtered|)
    ensures CurrentPage(filtered, page) ==
      filtered[Min((page - 1) * UsersPerPage, |filtered|)..Min(page * UsersPerPage, |filtered|)]
  {
  }

  /** A page past the last one (possible when the search shrinks the list
      after navigating) shows nothing. */
  lemma StalePageIsEmpty(filtered: seq<Row>, page: int)
    requires page > TotalPages(|filtered|)
    ensures CurrentPage(filtered, page) == []
  {
  }

  /** Pages 1 to k, one after the other. */
  function PagesUpTo(filtered: seq<Row>, k: nat): seq<Row> {
    if k == 0 then [] else PagesUpTo(filtered, k - 1) + CurrentPage(filtered, k)
  }

  lemma {:induction false} PagesUpToIsPrefix(filtered: seq<Row>, k: nat)
    ensures PagesUpTo(filtered, k) == filtered[..Min(k * UsersPerPage, |filtered|)]
  {
    if k > 0 {
      PagesUpToIsPrefix(filtered, k - 1);
      PageIsWindow(filtered, k);
      var a, b := Min((k - 1) * UsersPerPage, |filtered|), Min(k * UsersPerPage, |filtered|);
      assert filtered[..a] + filtered[a..b] == filtered[..b];
    }
  }

  /** Reading every page in order shows each filtered row exactly once. */
  lemma PagesCoverList(filtered: seq<Row>)
    ensures PagesUpTo(filtered, TotalPages(|filtered|)) == filtered
  {
    PagesUpToIsPrefix(filtered, TotalPages(|filtered|));
  }

  /** The Previous button: `Math.max(prev - 1, 1)`. */
  function Previous(page: int): (p: int)
    ensures p >= 1
    ensures page > 1 ==> p == page - 1
    ensures page <= 1 ==> p == 1
  {
    if page - 1 > 1 then page - 1 else 1
  }

  /** The Next button: `Math.min(prev + 1, totalPages)`. */
  function Next(page: int, totalPages: nat): (p: int)
    ensures p <= totalPages
    ensures page < totalPages ==> p == page + 1
    ensures page >= totalPages ==> p == totalPages
  {
    if page + 1 < totalPages then page + 1 else totalPages
  }

  /** From a page in range, both buttons stay in range. */
  lemma NavigationStaysInRange(page: int, totalPages: nat)
    requires 1 <= page <= totalPages
    ensures 1 <= Previous(page) <= totalPages
    ensures 1 <= Next(page, totalPages) <= totalPages
  {
  }

  /** From a stale page past the last one, Next brings the list back to its
      last page, which shows the final rows. */
  lemma StalePageNextRecovers(filtered: seq<Row>, page: int)
    requires 1 <= TotalPages(|filtered|) < page
    ensures Next(page, TotalPages(|filtered|)) == TotalPages(|filtered|)
    ensures CurrentPage(filtered, Next(page, TotalPages(|filtered|))) != []
  {
    var t := TotalPages(|filtered|);
    PageIsWindow(filtered, t);
  }
}
