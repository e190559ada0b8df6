/**
 * The listing operations of the users service: the plain list of users, and
 * the paged, filtered and sorted list with its page metadata.
 *
 * The database is abstract. For the plain list it is the sequence of stored
 * users the repository returns. For the paged list it is a function `find`
 * from the filter and sort descriptors to every matching user in sorted order;
 * the page is the slice of that sequence that skip and limit select, and the
 * document count is its length.
 */
module UsersService {
  import opened Wrappers

  /** A stored user; `password` is the stored hash and is never returned. */
  datatype UserRecord = UserRecord(id: string, name: string, email: string, password: string)

  /** What the service hands out for a user: no password. */
  datatype UserView = UserView(id: string, name: string, email: string)

  /** The filter descriptor: everything, or one field matched against a pattern. */
  datatype Query = MatchAll | FieldMatches(field: string, pattern: string)

  /** The fields a listing can be sorted on. */
  datatype SortKey = ByName | ByEmail

  /** The sort descriptor: one key, direction 1 (ascending) or -1 (descending). */
  datatype SortSpec = SortSpec(key: SortKey, direction: int)

  /** One page of users with its metadata. */
  datatype Page = Page(pageNumber: int, pageSize: int, count: nat, totalPages: nat,
                       hasPreviousPage: bool, hasNextPage: bool, data: seq<UserView>)

  /** The record as the service shows it: id, name and email. */
  function Project(u: UserRecord): UserView
  {
    UserView(u.id, u.name, u.email)
  }

  /**
   * The list of all users, each reduced to id, name and email, in the
   * repository's order.
   */
  method GetUsers(users: seq<UserRecord>) returns (results: seq<UserView>)
    ensures |results| == |users|
    ensures forall i :: 0 <= i < |users| ==>
              results[i].id == users[i].id && results[i].name == users[i].name
              && results[i].email == users[i].email
  {
    results := [];
    for i := 0 to |users|
      invariant |results| == i
      invariant forall k :: 0 <= k < i ==> results[k] == Project(users[k])
    {
      var user := users[i];
      results := results + [UserView(user.id, user.name, user.email)];
    }
  }

  /**
   * JavaScript truthiness of an optional string parameter: present and not
   * the empty string.
   */
  predicate Truthy(s: Option<string>)
  {
    s.Some? && s.value != ""
  }

  /** The filter: one field matched against the key, when both are given, else everything. */
  function BuildQuery(fieldNameForSearch: Option<string>, keyForSearch: Option<string>): (q: Query)
    ensures q != MatchAll <==> Truthy(fieldNameForSearch) && Truthy(keyForSearch)
    ensures q.FieldMatches? ==> q.field == fieldNameForSearch.value && q.pattern == keyForSearch.value
  {
    if Truthy(fieldNameForSearch) && Truthy(keyForSearch) then
      FieldMatches(fieldNameForSearch.value, keyForSearch.value)
    else
      MatchAll
  }

  /**
   * The sort: by name exactly when the field is `"name"`, by email otherwise;
   * descending exactly when the order is `"desc"`, ascending otherwise.
   */
  function BuildSort(fieldNameForSort: Option<string>, orderForSort: Option<string>): (s: SortSpec)
    ensures s.key == ByName <==> fieldNameForSort == Some("name")
    ensures s.key == ByEmail <==> fieldNameForSort != Some("name")
    ensures s.direction == -1 <==> orderForSort == Some("desc")
    ensures s.direction == 1 <==> orderForSort != Some("desc")
  {
    var direction := if orderForSort == Some("desc") then -1 else 1;
    if fieldNameForSort == Some("name") then SortSpec(ByName, direction) else SortSpec(ByEmail, direction)
  }

  /** `Math.ceil(total / size)` for a whole `total` and a positive `size`. */
  function CeilDiv(total: nat, size: int): (r: nat)
    requires size > 0
    ensures r * size >= total
    ensures r > 0 ==> (r - 1) * size < total
  {
    (total + size - 1) / size
  }

  /** The records skip and limit select: at most `limit` of them, starting at index `skip`. */
  function Window(all: seq<UserRecord>, skip: nat, limit: nat): (w: seq<UserRecord>)
    ensures |w| <= limit
    ensures skip >= |all| ==> w == []
    ensures skip < |all| ==> |w| == if skip + limit <= |all| then limit else |all| - skip
    ensures forall k :: 0 <= k < |w| ==> skip + k < |all| && w[k] == all[skip + k]
  {
    if skip >= |all| then []
    else if skip + limit <= |all| then all[skip..skip + limit]
    else all[skip..]
  }

  /** How many matching records come before page `pageNumbering`; none for the first page. */
  function Skip(pageNumbering: int, pageSizing: int): (r: nat)
    requires pageNumbering >= 1 && pageSizing > 0
    ensures r == 0 <==> pageNumbering == 1
  {
    MulMonotone(if pageNumbering > 1 then 1 else 0, pageNumbering - 1, pageSizing);
    (pageNumbering - 1) * pageSizing
  }

  /**
   * The paged listing. `find(query, sort)` is every user that matches the
   * filter, in the sorted order.
   */
  function GetUsersWithNumbering(pageNumbering: int, pageSizing: int,
                                 fieldNameForSearch: Option<string>, keyForSearch: Option<string>,
                                 fieldNameForSort: Option<string>, orderForSort: Option<string>,
                                 find: (Query, SortSpec) -> seq<UserRecord>): (p: Page)
    requires pageNumbering >= 1 && pageSizing > 0
    ensures var all := find(BuildQuery(fieldNameForSearch, keyForSearch), BuildSort(fieldNameForSort, orderForSort));
            && p.pageNumber == pageNumbering && p.pageSize == pageSizing
            && p.count == |p.data| <= pageSizing
            && p.totalPages * pageSizing >= |all|
            && (p.totalPages > 0 ==> (p.totalPages - 1) * pageSizing < |all|)
            && forall k :: 0 <= k < |p.data| ==>
                 Skip(pageNumbering, pageSizing) + k < |all|
                 && p.data[k] == Project(all[Skip(pageNumbering, pageSizing) + k])
  {
    var query := BuildQuery(fieldNameForSearch, keyForSearch);
    var sort := BuildSort(fieldNameForSort, orderForSort);
    var skip := Skip(pageNumbering, pageSizing);
    var all := find(query, sort);
    var users := Window(all, skip, pageSizing);
    var totalUsers := |all|;
    var totalPages := CeilDiv(totalUsers, pageSizing);
    Page(pageNumbering, pageSizing, |users|, totalPages,
         pageNumbering > 1, pageNumbering < totalPages,
         seq(|users|, k requires 0 <= k < |users| => Project(users[k])))
  }

  // ---------------------------------------------------------------------------
  // Properties of the page metadata

  /** `n < CeilDiv(total, size)` exactly when more than `n` full pages of records exist. */
  lemma CeilDivGreater(total: nat, size: int, n: int)
    requires size > 0
    ensures n < CeilDiv(total, size) <==> n * size < total
  {
    var r: int := CeilDiv(total, size);
    if n < r {
      MulMonotone(n, r - 1, size);
    } else {
      MulMonotone(r, n, size);
    }
  }

  /** Multiplying by a positive number keeps order. */
  lemma MulMonotone(a: int, b: int, c: int)
    requires a <= b && c > 0
    ensures a * c <= b * c
  {
    assert b * c - a * c == (b - a) * c;
  }

  /**
   * There is a previous page exactly when this page starts after the first
   * record, and a next page exactly when matching records remain after this
   * page.
   */
  lemma PageNeighbours(pageNumbering: int, pageSizing: int,
                       fieldNameForSearch: Option<string>, keyForSearch: Option<string>,
                       fieldNameForSort: Option<string>, orderForSort: Option<string>,
                       find: (Query, SortSpec) -> seq<UserRecord>)
    requires pageNumbering >= 1 && pageSizing > 0
    ensures var all := find(BuildQuery(fieldNameForSearch, keyForSearch), BuildSort(fieldNameForSort, orderForSort));
            var p := GetUsersWithNumbering(pageNumbering, pageSizing, fieldNameForSearch, keyForSearch,
                                           fieldNameForSort, orderForSort, find);
            && (p.hasPreviousPage <==> Skip(pageNumbering, pageSizing) > 0)
            && (p.hasNextPage <==> pageNumbering * pageSizing < |all|)
  {
    var all := find(BuildQuery(fieldNameForSearch, keyForSearch), BuildSort(fieldNameForSort, orderForSort));
    var p := GetUsersWithNumbering(pageNumbering, pageSizing, fieldNameForSearch, keyForSearch,
                                   fieldNameForSort, orderForSort, find);
    assert p.hasPreviousPage == (pageNumbering > 1) && p.hasNextPage == (pageNumbering < CeilDiv(|all|, pageSizing));
    CeilDivGreater(|all|, pageSizing, pageNumbering);
    if pageNumbering > 1 {
      MulMonotone(1, pageNumbering - 1, pageSizing);
    } else {
      assert Skip(pageNumbering, pageSizing) == 0 * pageSizing;
    }
  }

  /**
   * Every page but the last is full; the last one (`totalPages`) holds the
   * remaining records, and pages beyond it are empty.
   */
  lemma PageCount(pageNumbering: int, pageSizing: int,
                  fieldNameForSearch: Option<string>, keyForSearch: Option<string>,
                  fieldNameForSort: Option<string>, orderForSort: Option<string>,
                  find: (Query, SortSpec) -> seq<UserRecord>)
    requires pageNumbering >= 1 && pageSizing > 0
    ensures var all := find(BuildQuery(fieldNameForSearch, keyForSearch), BuildSort(fieldNameForSort, orderForSort));
            var p := GetUsersWithNumbering(pageNumbering, pageSizing, fieldNameForSearch, keyForSearch,
                                           fieldNameForSort, orderForSort, find);
            && (pageNumbering < p.totalPages ==> p.count == pageSizing)
            && (pageNumbering == p.totalPages ==> p.count == |all| - (pageNumbering - 1) * pageSizing)
            && (pageNumbering > p.totalPages ==> p.count == 0)
  {
    var all := find(BuildQuery(fieldNameForSearch, keyForSearch), BuildSort(fieldNameForSort, orderForSort));
    CeilDivGreater(|all|, pageSizing, pageNumbering);
    CeilDivGreater(|all|, pageSizing, pageNumbering - 1);
    assert pageNumbering * pageSizing == (pageNumbering - 1) * pageSizing + pageSizing;
  }

  /**
   * Within one fixed result sequence of `find`, the pages tile the matching
   * records: record `i` is element `i % size` of page `i / size + 1`, and that
   * page is within `totalPages`.
   */
  lemma EveryRecordOnItsPage(i: nat, pageSizing: int,
                             fieldNameForSearch: Option<string>, keyForSearch: Option<string>,
                             fieldNameForSort: Option<string>, orderForSort: Option<string>,
                             find: (Query, SortSpec) -> seq<UserRecord>)
    requires pageSizing > 0
    requires i < |find(BuildQuery(fieldNameForSearch, keyForSearch), BuildSort(fieldNameForSort, orderForSort))|
    ensures var all := find(BuildQuery(fieldNameForSearch, keyForSearch), BuildSort(fieldNameForSort, orderForSort));
            var p := GetUsersWithNumbering(i / pageSizing + 1, pageSizing, fieldNameForSearch, keyForSearch,
                                           fieldNameForSort, orderForSort, find);
            && i / pageSizing + 1 <= p.totalPages
            && i % pageSizing < |p.data|
            && p.data[i % pageSizing] == Project(all[i])
  {
    var all := find(BuildQuery(fieldNameForSearch, keyForSearch), BuildSort(fieldNameForSort, orderForSort));
    var n := i / pageSizing + 1;
    var skip := (n - 1) * pageSizing;
    assert skip + i % pageSizing == i;
    CeilDivGreater(|all|, pageSizing, n - 1);
    MulMonotone(n - 1, n - 1, pageSizing);
  }
}
