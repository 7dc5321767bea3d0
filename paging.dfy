/** Turning the 1-based page number of the listing API into the row offset
    handed to the page query. */
module Paging {

  /** Java's `int`: the values of a 32-bit two's-complement integer. */
  type Int32 = x: int | -0x8000_0000 <= x < 0x8000_0000

  const IntMin: Int32 := -0x8000_0000
  const IntMax: Int32 := 0x7fff_ffff

  /** x reduced to Java's `int` range, as 32-bit arithmetic does. */
  function Wrap32(x: int): (r: Int32)
    ensures (x - r) % 0x1_0000_0000 == 0
    ensures IntMin <= x <= IntMax ==> r == x
  {
    var m := x % 0x1_0000_0000;
    if m < 0x8000_0000 then m else m - 0x1_0000_0000
  }

  /** `(page - 1) * pageSize` as the service computes it: both the
      subtraction and the product are Java `int` operations and wrap. It
      agrees with Offset whenever nothing leaves the `int` range. */
  function OffsetAsWritten(pageSize: Int32, page: Int32): (r: Int32)
    ensures page > IntMin && IntMin <= (page - 1) * pageSize <= IntMax ==> r == (page - 1) * pageSize
  {
    Wrap32(Wrap32(page - 1) * pageSize)
  }

  /** A page number that is large enough makes the 32-bit product wrap: the
      offset for page 65537 of 32768-row pages comes out negative, and the one
      for page 65538 of 65536-row pages comes out as the offset of page 2. */
  lemma OffsetAsWrittenOverflows()
    ensures OffsetAsWritten(32768, 65537) == -0x8000_0000 < 0
    ensures OffsetAsWritten(65536, 65538) == 65536 == Offset(65536, 2)
    ensures Offset(65536, 65538) == 0x1_0001_0000
  {
  }

  /** The offset of the first row of 1-based page `page`: `(page - 1) *
      pageSize`, computed without wrap-around. It is never negative for
      page >= 1 and pageSize >= 0, it is 0 on the first page, and every
      page is preceded by exactly the rows of the pages before it. */
  function Offset(pageSize: Int32, page: Int32): (r: int)
    ensures page >= 1 && pageSize >= 0 ==> r >= 0
    ensures page == 1 ==> r == 0
  {
    (page - 1) * pageSize
  }

  /** Going one page further moves the offset by exactly one page. */
  lemma OffsetStep(pageSize: Int32, page: Int32)
    requires page < IntMax
    ensures Offset(pageSize, page + 1) == Offset(pageSize, page) + pageSize
  {
  }
}
