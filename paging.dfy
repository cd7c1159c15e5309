/** Paged results: the request, Spring Data's page of a whole ordered result,
    and the `PagedResponse` the services copy it into. */
module Paging {

  datatype PageRequest = PageRequest(page: nat, size: nat)

  datatype Page<T> = Page(
    content: seq<T>,
    number: nat,
    size: nat,
    totalElements: nat,
    totalPages: nat,
    last: bool)

  datatype PagedResponse<T> = PagedResponse(
    content: seq<T>,
    page: nat,
    size: nat,
    totalElements: nat,
    totalPages: nat,
    last: bool)

  function Min(a: nat, b: nat): nat
  {
    if a <= b then a else b
  }

  /** The page a query returns for a request: the requested window of the whole
      result, with the totals of the whole result. `PageRequest.of` refuses a
      size below one. */
  function Paginate<T>(rows: seq<T>, req: PageRequest): (p: Page<T>)
    requires req.size >= 1
    ensures p.number == req.page && p.size == req.size && p.totalElements == |rows|
    ensures |p.content| == Min(req.size, |rows| - Min(Offset(req), |rows|)) <= req.size
    ensures forall i :: 0 <= i < |p.content| ==> Offset(req) + i < |rows| && p.content[i] == rows[Offset(req) + i]
    ensures p.totalPages == PageCount(|rows|, req.size)
    ensures (p.totalPages - 1) * req.size < |rows| <= p.totalPages * req.size || (rows == [] && p.totalPages == 0)
    ensures p.last <==> req.page + 1 >= p.totalPages
  {
    var window := Window(rows, Offset(req), req.size);
    var totalPages := PageCount(|rows|, req.size);
    Page(window, req.page, req.size, |rows|, totalPages, req.page + 1 >= totalPages)
  }

  /** The position of the first element of the requested page. */
  function Offset(req: PageRequest): nat
  {
    req.page * req.size
  }

  /** The `size` elements of `rows` from position `start` on, fewer at the end. */
  function Window<T>(rows: seq<T>, start: nat, size: nat): (w: seq<T>)
    ensures |w| == Min(size, |rows| - Min(start, |rows|)) <= size
    ensures forall i :: 0 <= i < |w| ==> start + i < |rows| && w[i] == rows[start + i]
  {
    var lo := Min(start, |rows|);
    var hi := Min(lo + size, |rows|);
    rows[lo..hi]
  }

  /** The number of pages of `size` elements that hold `n` elements. */
  function PageCount(n: nat, size: nat): (pages: nat)
    requires size >= 1
    ensures (pages - 1) * size < n <= pages * size || (n == 0 && pages == 0)
  {
    PageCountCovers(n, size);
    (n + size - 1) / size
  }

  lemma PageCountCovers(n: nat, size: nat)
    requires size >= 1
    ensures var pages := (n + size - 1) / size;
      (pages - 1) * size < n <= pages * size || (n == 0 && pages == 0)
  {
    var pages := (n + size - 1) / size;
    var rem := (n + size - 1) % size;
    assert n + size - 1 == pages * size + rem && 0 <= rem < size;
    assert (pages - 1) * size == pages * size - size;
    if n == 0 {
      assert pages * size == size - 1 - rem;
      assert pages * size < size;
    }
  }

  /** The service's copy of a page: one mapped element per page element, in page
      order, and every metadata field copied. */
  function ToPagedResponse<A, B>(p: Page<A>, f: A -> B): (r: PagedResponse<B>)
    ensures |r.content| == |p.content|
    ensures forall i :: 0 <= i < |p.content| ==> r.content[i] == f(p.content[i])
    ensures r.page == p.number && r.size == p.size && r.totalElements == p.totalElements
    ensures r.totalPages == p.totalPages && r.last == p.last
  {
    PagedResponse(seq(|p.content|, i requires 0 <= i < |p.content| => f(p.content[i])),
                  p.number, p.size, p.totalElements, p.totalPages, p.last)
  }
}
