/**
 * `TodoRepository`: reading `page` and `per_page` from the query parameters
 * with positive defaults, and the row offset `getTodos` hands to the query.
 * The SQL itself is not part of this model.
 */
module TodoRepository {
  import opened Wrappers
  import opened JavaText

  const DEFAULT_PAGE: Int32 := 1
  const DEFAULT_PER_PAGE: Int32 := 10

  /**
   * `parsePaginationOrDefault`: the parameter (or the default spelled in
   * decimal when it is absent) if it parses to a positive `int`, the default
   * otherwise.
   */
  function ParsePaginationOrDefault(params: map<string, string>, key: string, defaultValue: Int32): (r: Int32)
    ensures r > 0 || r == defaultValue
    ensures key in params && ParseInt(params[key]).Some? && ParseInt(params[key]).value > 0 ==>
      r == ParseInt(params[key]).value
    ensures key in params && (ParseInt(params[key]).None? || ParseInt(params[key]).value <= 0) ==>
      r == defaultValue
  {
    var value := if key in params then params[key] else IntToDecimal(defaultValue);
    match ParseInt(value)
      case Some(parsed) => if parsed > 0 then parsed else defaultValue
      case None => defaultValue
  }

  /** An absent key yields the default, whatever its sign. */
  lemma MissingKeyGivesDefault(params: map<string, string>, key: string, defaultValue: Int32)
    requires key !in params
    ensures ParsePaginationOrDefault(params, key, defaultValue) == defaultValue
  {
    ParseIntOfDecimal(defaultValue);
  }

  /** A positive value written in decimal is taken as is. */
  lemma PositiveValueKept(params: map<string, string>, key: string, n: Int32, defaultValue: Int32)
    requires n > 0 && key in params && params[key] == IntToDecimal(n)
    ensures ParsePaginationOrDefault(params, key, defaultValue) == n
  {
    ParseIntOfDecimal(n);
  }

  datatype Pagination = Pagination(page: Int32, perPage: Int32, offset: int)

  /** `getTodos(params)` as written: the offset is `(page - 1) * perPage` in `int` arithmetic. */
  function PaginationAsWritten(params: map<string, string>): (p: Pagination)
    ensures p.page >= 1 && p.perPage >= 1
    ensures INT_MIN <= p.offset <= INT_MAX
    ensures (p.page - 1) * p.perPage <= INT_MAX ==> p.offset == (p.page - 1) * p.perPage
  {
    var page := ParsePaginationOrDefault(params, "page", DEFAULT_PAGE);
    var perPage := ParsePaginationOrDefault(params, "per_page", DEFAULT_PER_PAGE);
    ProductBound(page - 1, perPage);
    Pagination(page, perPage, Wrap32((page - 1) * perPage))
  }

  /** `getTodos(params)` with the offset computed in `long` arithmetic. */
  function PaginationOf(params: map<string, string>): (p: Pagination)
    ensures p.page >= 1 && p.perPage >= 1
    ensures p.offset == (p.page - 1) * p.perPage
    ensures 0 <= p.offset <= LONG_MAX
  {
    var page := ParsePaginationOrDefault(params, "page", DEFAULT_PAGE);
    var perPage := ParsePaginationOrDefault(params, "per_page", DEFAULT_PER_PAGE);
    var product := (page - 1) * perPage;
    assert 0 <= product <= INT_MAX * INT_MAX by {
      ProductBound(page - 1, perPage);
    }
    Pagination(page, perPage, Wrap64(product))
  }

  lemma ProductBound(a: int, b: int)
    requires 0 <= a <= INT_MAX && 0 <= b <= INT_MAX
    ensures 0 <= a * b <= INT_MAX * INT_MAX
  {
    MulMonotone(a, INT_MAX, b);
    MulMonotone(b, INT_MAX, INT_MAX);
    assert INT_MAX * b == b * INT_MAX;
  }

  lemma {:induction false} MulMonotone(a: nat, c: nat, b: nat)
    requires a <= c
    ensures 0 <= a * b <= c * b
    decreases b
  {
    if b > 0 {
      MulMonotone(a, c, b - 1);
      assert a * b == a * (b - 1) + a;
      assert c * b == c * (b - 1) + c;
    }
  }

  /** `getTodos()`: no parameters means page 1 of 10 rows, from row 0. */
  lemma DefaultPagination()
    ensures PaginationOf(map[]) == Pagination(1, 10, 0)
    ensures PaginationAsWritten(map[]) == Pagination(1, 10, 0)
  {
    MissingKeyGivesDefault(map[], "page", DEFAULT_PAGE);
    MissingKeyGivesDefault(map[], "per_page", DEFAULT_PER_PAGE);
  }

  /** Whenever the product fits in an `int`, both computations agree. */
  lemma AsWrittenAgreesWhileInRange(params: map<string, string>)
    requires PaginationOf(params).offset <= INT_MAX
    ensures PaginationAsWritten(params) == PaginationOf(params)
  {
  }

  lemma PageParam()
    ensures ParseInt("65537") == Some(65537)
  {
    var s := "65537";
    assert s[..4] == "6553" && "6553"[..3] == "655" && "655"[..2] == "65" && "65"[..1] == "6" && "6"[..0] == "";
    assert DecimalValue("6") == 6;
    assert DecimalValue("65") == 65;
    assert DecimalValue("655") == 655;
    assert DecimalValue("6553") == 6553;
    assert DecimalValue(s) == 65537;
    ParseIntOfDigits(s);
  }

  lemma PerPageParam()
    ensures ParseInt("32768") == Some(32768)
  {
    var s := "32768";
    assert s[..4] == "3276" && "3276"[..3] == "327" && "327"[..2] == "32" && "32"[..1] == "3" && "3"[..0] == "";
    assert DecimalValue("3") == 3;
    assert DecimalValue("32") == 32;
    assert DecimalValue("327") == 327;
    assert DecimalValue("3276") == 3276;
    assert DecimalValue(s) == 32768;
    ParseIntOfDigits(s);
  }

  /** Page 65537 of 32768 rows: the `int` product 2^31 wraps to a negative offset. */
  lemma OffsetOverflows()
    ensures var params := map["page" := "65537", "per_page" := "32768"];
      && PaginationAsWritten(params).offset == INT_MIN
      && PaginationOf(params).offset == 0x8000_0000
  {
    var params := map["page" := "65537", "per_page" := "32768"];
    PageParam();
    PerPageParam();
    assert ParsePaginationOrDefault(params, "page", DEFAULT_PAGE) == 65537;
    assert ParsePaginationOrDefault(params, "per_page", DEFAULT_PER_PAGE) == 32768;
    assert (65537 - 1) * 32768 == 0x8000_0000;
    assert Wrap32(0x8000_0000) == INT_MIN;
  }
}
