/** The offset/limit page request used by every paged query
    (server/.../util/CustomPageable.java). Its fields are Java `int`s, so the
    arithmetic of `next` and `withPage` wraps around at 32 bits. The `Sort`
    field is always `Sort.unsorted()` and is not represented. */
module Pagination {
  import opened Common

  const TWO_31: int := 0x8000_0000
  const TWO_32: int := 0x1_0000_0000

  /** A Java `int`. */
  type int32 = x: int | -0x8000_0000 <= x < 0x8000_0000

  /** The Java `int` that an exact result wraps around to. */
  function Wrap32(x: int): (r: int32)
    ensures -TWO_31 <= x < TWO_31 ==> r == x
  {
    (x + TWO_31) % TWO_32 - TWO_31
  }

  /** Wrap32 differs from its argument by a multiple of 2^32. */
  lemma Wrap32Congruent(x: int)
    ensures exists k: int :: x - Wrap32(x) == TWO_32 * k
  {
    var q := (x + TWO_31) / TWO_32;
    assert x + TWO_31 == TWO_32 * q + (x + TWO_31) % TWO_32;
    assert x - Wrap32(x) == TWO_32 * q;
  }

  /** Adding a multiple of 2^32 does not change the wrapped value. */
  lemma Wrap32Periodic(x: int, k: int)
    ensures Wrap32(x + TWO_32 * k) == Wrap32(x)
  {
    var y := x + TWO_31;
    var q := y / TWO_32;
    var m := y % TWO_32;
    assert y == TWO_32 * q + m && 0 <= m < TWO_32;
    assert y + TWO_32 * k == TWO_32 * (q + k) + m;
    assert (y + TWO_32 * k) % TWO_32 == m;
  }

  /** Wrapping an intermediate result of an addition is harmless: two's
      complement arithmetic is addition modulo 2^32. */
  lemma Wrap32Add(a: int, b: int)
    ensures Wrap32(a + Wrap32(b)) == Wrap32(a + b)
  {
    Wrap32Congruent(b);
    var k :| b - Wrap32(b) == TWO_32 * k;
    assert a + Wrap32(b) + TWO_32 * k == a + b;
    Wrap32Periodic(a + Wrap32(b), k);
  }

  /** The page size that `of(null, null)` falls back to. */
  const DEFAULT_SIZE: int32 := 50

  /** An immutable page request; equality is structural, as the source's
      generated equals/hashCode make it. */
  datatype CustomPageable = CustomPageable(offset: int32, limit: int32)
  {
    /** Always page 0: the offset is not tied to a page number. */
    function GetPageNumber(): (r: int)
      ensures r == 0
    {
      0
    }

    function GetPageSize(): (r: int32)
      ensures r == limit
    {
      limit
    }

    /** The offset, widened to a Java `long`. */
    function GetOffset(): (r: int)
      ensures r == offset
    {
      offset
    }

    /** The request for the following window: offset advanced by the limit,
        in `int` arithmetic. */
    function Next(): (r: CustomPageable)
      ensures r.limit == limit
      ensures r.offset == Wrap32(offset + limit)
      ensures -TWO_31 <= offset + limit < TWO_31 ==> r.GetOffset() == offset + limit
    {
      CustomPageable(Wrap32(offset + limit), limit)
    }

    /** A copy of the receiver. */
    function PreviousOrFirst(): (r: CustomPageable)
      ensures r == this
    {
      CustomPageable(offset, limit)
    }

    /** A copy of the receiver. */
    function First(): (r: CustomPageable)
      ensures r == this
    {
      CustomPageable(offset, limit)
    }

    /** The request `pageNumber` windows further on, computed as
        `offset + limit * pageNumber` in `int` arithmetic. */
    function WithPage(pageNumber: int32): (r: CustomPageable)
      ensures r.limit == limit
      ensures r.offset == Wrap32(offset + limit * pageNumber)
      ensures -TWO_31 <= offset + limit * pageNumber < TWO_31 ==>
                r.GetOffset() == offset + limit * pageNumber
    {
      Wrap32Add(offset, limit * pageNumber);
      CustomPageable(Wrap32(offset + Wrap32(limit * pageNumber)), limit)
    }

    /** Never a previous page. */
    function HasPrevious(): (r: bool)
      ensures !r
    {
      false
    }
  }

  /** CustomPageable.of(from, size). Two nulls mean offset 0 and size 50.
      Otherwise `from < 0 || size <= 0` is evaluated on the unboxed values:
      a negative `from` fails before `size` is unboxed, and unboxing a null
      throws NullPointerException. */
  function Of(from: Option<int32>, size: Option<int32>): (r: Result<CustomPageable>)
    ensures from.None? && size.None? ==> r == Ok(CustomPageable(0, DEFAULT_SIZE))
    ensures from.Some? && size.Some? ==>
              (r.Ok? <==> 0 <= from.value && 0 < size.value) &&
              (r.Err? ==> r.error == BadRequest) &&
              (r.Ok? ==> r.value.GetOffset() == from.value && r.value.GetPageSize() == size.value)
    ensures from.Some? && from.value < 0 ==> r == Err(BadRequest)
    ensures from.None? && size.Some? ==> r == Err(NullPointer)
    ensures from.Some? && 0 <= from.value && size.None? ==> r == Err(NullPointer)
    ensures r.Ok? ==> 0 <= r.value.offset && 0 < r.value.limit
  {
    var (f, s) := if from.None? && size.None? then (Some(0), Some(DEFAULT_SIZE)) else (from, size);
    if f.None? then Err(NullPointer)
    else if f.value < 0 then Err(BadRequest)
    else if s.None? then Err(NullPointer)
    else if s.value <= 0 then Err(BadRequest)
    else Ok(CustomPageable(f.value, s.value))
  }

  /** A page request accepted by `Of`: what the paged queries may assume. */
  predicate Accepted(p: CustomPageable)
  {
    0 <= p.offset && 0 < p.limit
  }

  /** Two accepted page requests are equal exactly when they were built from
      equal arguments. */
  lemma OfEqualIff(f1: int32, s1: int32, f2: int32, s2: int32)
    requires Of(Some(f1), Some(s1)).Ok? && Of(Some(f2), Some(s2)).Ok?
    ensures Of(Some(f1), Some(s1)) == Of(Some(f2), Some(s2)) <==> f1 == f2 && s1 == s2
  {
  }

  /** Passing no arguments is the same as passing the defaults. */
  lemma OfDefaults()
    ensures Of(None, None) == Of(Some(0), Some(DEFAULT_SIZE))
  {
  }

  /** `next()` is `withPage(1)`, overflow included. */
  lemma NextIsWithPageOne(p: CustomPageable)
    ensures p.Next() == p.WithPage(1)
  {
  }
}
