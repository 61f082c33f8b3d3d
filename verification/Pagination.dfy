/** Page arithmetic on 64-bit integers. */
module Pagination {
  import opened Options

  const MAX := 0x7fff_ffff_ffff_ffff
  const MODULUS := 0x1_0000_0000_0000_0000

  /** The value an int variable holds after wrap-around. */
  function Wrap(x: int): (r: int)
    ensures -MAX - 1 <= r <= MAX
    ensures -MAX - 1 <= x <= MAX ==> r == x
  {
    (x + MAX + 1) % MODULUS - MAX - 1
  }

  /** The query's page and page size after defaults and clamping; None is an absent or unreadable value. */
  method ParsePagination(pageArg: Option<int>, perPageArg: Option<int>) returns (page: int, perPage: int)
    ensures page >= 1 && 1 <= perPage <= 200
    ensures page == if pageArg.Some? && pageArg.value >= 1 then pageArg.value else 1
    ensures perPageArg.Some? && 1 <= perPageArg.value <= 200 ==> perPage == perPageArg.value
    ensures perPageArg.Some? && perPageArg.value > 200 ==> perPage == 200
    ensures perPageArg == None || perPageArg.value < 1 ==> perPage == 50
  {
    page, perPage := 1, 50;
    if pageArg.Some? {
      page := pageArg.value;
    }
    if perPageArg.Some? {
      perPage := perPageArg.value;
    }
    if page < 1 {
      page := 1;
    }
    if perPage < 1 {
      perPage := 50;
    }
    if perPage > 200 {
      perPage := 200;
    }
  }

  function Clip(x: int, length: nat): int {
    if x > length then length else x
  }

  function Start(length: nat, page: int, perPage: int): int {
    Clip(Wrap(Wrap(page - 1) * perPage), length)
  }

  function End(length: nat, page: int, perPage: int): int {
    Clip(Wrap(Wrap(Wrap(page - 1) * perPage) + perPage), length)
  }

  method Paginate(length: nat, page: int, perPage: int) returns (start: int, end: int)
    ensures start == Start(length, page, perPage) && end == End(length, page, perPage)
  {
    start := Wrap(Wrap(page - 1) * perPage);
    end := Wrap(start + perPage);
    if start > length {
      start := length;
    }
    if end > length {
      end := length;
    }
  }

  /** The slice of a page; meaningful where the two bounds can be sliced with. */
  predicate InBounds(length: nat, page: int, perPage: int) {
    0 <= Start(length, page, perPage) <= End(length, page, perPage) <= length
  }

  /** Just past the largest value, the smallest ones follow. */
  lemma WrapPast(x: int)
    requires MAX < x <= MAX + MODULUS
    ensures Wrap(x) == x - MODULUS
  {
  }

  /** The bounds in terms of the wrapped start. */
  lemma BoundsOfStart(length: nat, page: int, perPage: int)
    requires length <= MAX && 1 <= page <= MAX && 1 <= perPage <= 200
    ensures var start := Wrap((page - 1) * perPage);
      && Start(length, page, perPage) == Clip(start, length)
      && End(length, page, perPage) == if start > MAX - perPage then start + perPage - MODULUS
                                       else Clip(start + perPage, length)
  {
    var start := Wrap((page - 1) * perPage);
    if start > MAX - perPage {
      WrapPast(start + perPage);
    }
  }

  /**
   * For the pages and sizes that parsing lets through, slicing with the two
   * bounds is possible exactly when the wrapped start leaves room for a page.
   */
  lemma InBoundsIff(length: nat, page: int, perPage: int)
    requires length <= MAX && 1 <= page <= MAX && 1 <= perPage <= 200
    ensures InBounds(length, page, perPage) <==> 0 <= Wrap((page - 1) * perPage) <= MAX - perPage
  {
    BoundsOfStart(length, page, perPage);
  }

  /** The bounds are those of the requested page, reckoned without wrap-around. */
  predicate OwnPage(length: nat, page: int, perPage: int) {
    && Start(length, page, perPage) == (if (page - 1) * perPage > length then length else (page - 1) * perPage)
    && End(length, page, perPage) == (if page * perPage > length then length else page * perPage)
  }

  lemma PastTheEnd(length: nat, page: int, perPage: int)
    requires length <= MAX && 1 <= page <= MAX && 1 <= perPage <= 200 && page * perPage > MAX
    ensures OwnPage(length, page, perPage) <==> length <= Wrap((page - 1) * perPage) <= MAX - perPage
  {
    BoundsOfStart(length, page, perPage);
    assert page * perPage == (page - 1) * perPage + perPage;
    if (page - 1) * perPage <= MAX {
      assert (page - 1) * perPage >= 0;
    }
  }

  /**
   * The slice is the requested page's own exactly when the last row number fits,
   * or the wrapped page, like the requested one, lies past the end of the list.
   */
  lemma OwnPageIff(length: nat, page: int, perPage: int)
    requires length <= MAX && 1 <= page <= MAX && 1 <= perPage <= 200
    ensures OwnPage(length, page, perPage) <==>
      page * perPage <= MAX || length <= Wrap((page - 1) * perPage) <= MAX - perPage
  {
    if page * perPage <= MAX {
      PageOf(length, page, perPage);
    } else {
      PastTheEnd(length, page, perPage);
    }
  }

  /** A page number far past the end that yields the rows of the first page. */
  lemma HugePageShowsFirst(length: nat)
    requires 1 <= length <= MAX
    ensures InBounds(length, 0x4000_0000_0000_0001, 4) && !OwnPage(length, 0x4000_0000_0000_0001, 4)
    ensures Start(length, 0x4000_0000_0000_0001, 4) == Start(length, 1, 4) == 0
    ensures End(length, 0x4000_0000_0000_0001, 4) == End(length, 1, 4) > 0
  {
    assert Wrap(0x4000_0000_0000_0000 * 4) == 0;
  }

  /** A page number for which slicing would fail. */
  lemma HugePageOutOfBounds(length: nat)
    requires length <= MAX
    ensures !InBounds(length, 0x4000_0000_0000_0001, 2)
  {
    assert Wrap(0x4000_0000_0000_0000 * 2) == -MAX - 1;
  }

  /** The rows on pages 1..n, one page after another. */
  function Pages<T>(rows: seq<T>, n: nat, perPage: int): seq<T>
    requires |rows| <= MAX && 1 <= perPage <= 200 && n * perPage <= MAX
  {
    if n == 0 then []
    else
      PageOf(|rows|, n, perPage);
      assert (n - 1) * perPage <= MAX;
      Pages(rows, n - 1, perPage) + rows[Start(|rows|, n, perPage)..End(|rows|, n, perPage)]
  }

  lemma PageOf(length: nat, page: nat, perPage: int)
    requires length <= MAX && page >= 1 && 1 <= perPage <= 200 && page * perPage <= MAX
    ensures (page - 1) * perPage + perPage == page * perPage && 0 <= (page - 1) * perPage
    ensures InBounds(length, page, perPage)
    ensures Start(length, page, perPage) == Clip((page - 1) * perPage, length)
    ensures End(length, page, perPage) == Clip(page * perPage, length)
  {
    assert (page - 1) * perPage + perPage == page * perPage;
    assert page <= page * perPage;
  }

  /** As long as the last row number fits, pages laid end to end give the list, without gap or overlap. */
  lemma {:induction false} PagesTile<T>(rows: seq<T>, n: nat, perPage: int)
    requires |rows| <= MAX && 1 <= perPage <= 200 && n * perPage <= MAX
    ensures 0 <= n * perPage
    ensures Pages(rows, n, perPage) == if n * perPage > |rows| then rows else rows[..n * perPage]
    decreases n
  {
    if n > 0 {
      PageOf(|rows|, n, perPage);
      PagesTile(rows, n - 1, perPage);
      var a, b := Clip((n - 1) * perPage, |rows|), Clip(n * perPage, |rows|);
      assert rows[..a] + rows[a..b] == rows[..b];
    }
  }
}
