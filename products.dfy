/**
 * The product crawler: numbered pagination over `/products?page=N`. The number of
 * pages is learned from page 1's caption ("total X results in M pages"); every
 * product block on a page becomes one record, with a placeholder for a missing field.
 */
module Products {
  import opened Common
  import Text

  /** A `div.product` block: the text of its `h3`, `div.price` and `div.short-description`, when present. */
  datatype ProductBlock = ProductBlock(name: Option<string>, price: Option<string>, description: Option<string>)

  /** A fetched and parsed listing page: the text of its `div.paging-meta`, if any, and its product blocks in document order. */
  datatype ProductPage = ProductPage(pagingMeta: Option<string>, blocks: seq<ProductBlock>)

  /** A scraped product; the output JSON names the fields `ime`, `cena` and `opis`. */
  datatype Product = Product(name: string, price: string, description: string)

  const NoName := "Neznano ime"
  const NoPrice := "Ni cene"
  const NoDescription := "Brez opisa"

  /**
   * The web server: the page returned for `?page=n`, or `None` when the request or
   * the parsing of the answer raises.
   */
  type Server = nat -> Option<ProductPage>

  // ---------------------------------------------------------------------------
  // The caption pattern `total \d+ results in (\d+) pages`
  // ---------------------------------------------------------------------------

  predicate IsDigit(c: char) { '0' <= c <= '9' }

  predicate AllDigits(d: string) { forall k :: 0 <= k < |d| ==> IsDigit(d[k]) }

  /** The length of the longest run of digits in `s` that starts at `i`. */
  function DigitRun(s: string, i: nat): (n: nat)
    requires i <= |s|
    ensures i + n <= |s|
    ensures forall k :: i <= k < i + n ==> IsDigit(s[k])
    ensures i + n < |s| ==> !IsDigit(s[i + n])
    decreases |s| - i
  {
    if i < |s| && IsDigit(s[i]) then
      1 + DigitRun(s, i + 1)
    else 0
  }

  /** The value of one decimal digit. */
  function DigitValue(c: char): (v: nat)
    ensures IsDigit(c) ==> v == c as int - '0' as int
    ensures v <= 9
  {
    if IsDigit(c) then c as int - '0' as int else 0
  }

  /** `10` to the power `n`. */
  function Pow10(n: nat): (p: nat)
    ensures p >= 1
  {
    if n == 0 then 1 else 10 * Pow10(n - 1)
  }

  /** Python's `int(d)` for a string of decimal digits: `|d|` digits stay below `10^|d|`. */
  function DigitsValue(d: string): (v: nat)
    ensures v < Pow10(|d|)
  {
    if d == [] then 0
    else
      var high := DigitsValue(d[..|d| - 1]);
      assert 10 * high + 9 < 10 * Pow10(|d| - 1);
      10 * high + DigitValue(d[|d| - 1])
  }

  /** `w` occurs in `s` at position `i`. */
  predicate HasAt(s: string, i: nat, w: string) {
    i + |w| <= |s| && s[i..i + |w|] == w
  }

  /**
   * The page count captured when `total \d+ results in (\d+) pages` matches at
   * position `i`. Each `\d+` is followed by a space in the pattern, so the greedy
   * digit run is the only way a match can continue and the longest run decides.
   */
  function MatchAt(s: string, i: nat): Option<nat>
    requires i <= |s|
  {
    if HasAt(s, i, "total ") then MatchTotal(s, i + 6) else None
  }

  /** The rest of the pattern, `\d+ results in (\d+) pages`, from position `a`. */
  function MatchTotal(s: string, a: nat): Option<nat>
    requires a <= |s|
  {
    var n := DigitRun(s, a);
    if n > 0 && HasAt(s, a + n, " results in ") then MatchPages(s, a + n + 12) else None
  }

  /** The rest of the pattern, `(\d+) pages`, from position `b`. */
  function MatchPages(s: string, b: nat): Option<nat>
    requires b <= |s|
  {
    var n := DigitRun(s, b);
    if n > 0 && HasAt(s, b + n, " pages") then Some(DigitsValue(s[b..b + n])) else None
  }

  /** The leftmost position at or after `i` where the pattern matches (`re.search`). */
  function FirstMatch(s: string, i: nat): (r: Option<nat>)
    requires i <= |s|
    ensures r.None? ==> forall j :: i <= j <= |s| ==> MatchAt(s, j).None?
    ensures r.Some? ==> i <= r.value <= |s| && MatchAt(s, r.value).Some?
    ensures r.Some? ==> forall j :: i <= j < r.value ==> MatchAt(s, j).None?
    decreases |s| - i
  {
    if MatchAt(s, i).Some? then Some(i)
    else if i == |s| then None
    else FirstMatch(s, i + 1)
  }

  /**
   * The page count M of the first `total N results in M pages` in `s`, if any: there is
   * none exactly when the pattern matches nowhere in `s`.
   */
  function CaptionPages(s: string): (r: Option<nat>)
    ensures r.None? <==> forall j :: 0 <= j <= |s| ==> MatchAt(s, j).None?
  {
    match FirstMatch(s, 0)
    case None => None
    case Some(j) => MatchAt(s, j)
  }

  /** A page count the caption yields is the count of the leftmost match. */
  lemma CaptionPagesLeftmost(s: string)
    ensures CaptionPages(s).Some? ==>
      exists j :: 0 <= j <= |s| && MatchAt(s, j) == CaptionPages(s) && forall k :: 0 <= k < j ==> MatchAt(s, k).None?
  {
    var r := FirstMatch(s, 0);
  }

  /** The decimal digits of `n`, without leading zeros. */
  function Decimal(n: nat): (d: string)
    ensures d != [] && AllDigits(d)
  {
    var last := [('0' as int + n % 10) as char];
    if n < 10 then last else Decimal(n / 10) + last
  }

  lemma {:induction false} DecimalValue(n: nat)
    ensures DigitsValue(Decimal(n)) == n
  {
    var d := Decimal(n);
    if n >= 10 {
      DecimalValue(n / 10);
      assert d[..|d| - 1] == Decimal(n / 10);
    }
  }

  /** A run of digits followed by a non-digit (or the end) is exactly what `DigitRun` measures. */
  lemma {:induction false} DigitRunOf(s: string, i: nat, d: string)
    requires AllDigits(d) && i + |d| <= |s| && s[i..i + |d|] == d
    requires i + |d| < |s| ==> !IsDigit(s[i + |d|])
    ensures DigitRun(s, i) == |d|
    decreases |d|
  {
    if d != [] {
      assert s[i] == d[0];
      assert s[i + 1..i + |d|] == d[1..];
      DigitRunOf(s, i + 1, d[1..]);
    }
  }

  /** The caption the listing renders for `total` results in `pages` pages. */
  function Caption(total: nat, pages: nat): string {
    "total " + Decimal(total) + " results in " + Decimal(pages) + " pages"
  }

  /** A word that starts with a space ends any digit run before it. */
  lemma SpaceAt(s: string, j: nat, w: string)
    requires HasAt(s, j, w) && w != [] && w[0] == ' '
    ensures j < |s| && !IsDigit(s[j])
  {
    assert s[j..j + |w|][0] == w[0];
  }

  /** A page count followed by ` pages` is captured whole. */
  lemma MatchPagesOf(s: string, b: nat, dp: string)
    requires AllDigits(dp) && dp != [] && b + |dp| <= |s| && s[b..b + |dp|] == dp
    requires HasAt(s, b + |dp|, " pages")
    ensures MatchPages(s, b) == Some(DigitsValue(dp))
  {
    hide HasAt, DigitsValue;
    SpaceAt(s, b + |dp|, " pages");
    DigitRunOf(s, b, dp);
  }

  /** A result count followed by ` results in ` hands the rest over to `MatchPages`. */
  lemma MatchTotalOf(s: string, a: nat, dt: string)
    requires AllDigits(dt) && dt != [] && a + |dt| <= |s| && s[a..a + |dt|] == dt
    requires HasAt(s, a + |dt|, " results in ")
    ensures MatchTotal(s, a) == MatchPages(s, a + |dt| + 12)
  {
    hide HasAt;
    SpaceAt(s, a + |dt|, " results in ");
    DigitRunOf(s, a, dt);
  }

  /** A prefix of `s` that ends in `w` has `w` right after the rest of that prefix. */
  lemma Split(s: string, p: string, w: string)
    requires |p + w| <= |s| && s[..|p + w|] == p + w
    ensures s[..|p|] == p && HasAt(s, |p|, w) && s[|p|..|p| + |w|] == w
  {
    assert s[..|p|] == (p + w)[..|p|];
    assert s[|p|..|p| + |w|] == (p + w)[|p|..];
  }

  /** A caption laid out at the start of `s` matches there, capturing its page count. */
  lemma MatchAtOf(s: string, dt: string, dp: string)
    requires AllDigits(dt) && dt != [] && AllDigits(dp) && dp != []
    requires HasAt(s, 0, "total ")
    requires 6 + |dt| <= |s| && s[6..6 + |dt|] == dt && HasAt(s, 6 + |dt|, " results in ")
    requires 18 + |dt| + |dp| <= |s| && s[18 + |dt|..18 + |dt| + |dp|] == dp
    requires HasAt(s, 18 + |dt| + |dp|, " pages")
    ensures MatchAt(s, 0) == Some(DigitsValue(dp))
  {
    hide HasAt, MatchPages, DigitRun, DigitsValue, AllDigits;
    MatchPagesOf(s, 18 + |dt|, dp);
    MatchTotalOf(s, 6, dt);
  }

  /** A match at the very start is the leftmost one. */
  lemma MatchAtStart(s: string, v: nat)
    requires MatchAt(s, 0) == Some(v)
    ensures CaptionPages(s) == Some(v)
  {
    hide MatchAt;
    assert FirstMatch(s, 0) == Some(0);
  }

  /** Parsing a rendered caption, whatever follows it, gives back its page count. */
  lemma CaptionRoundTrip(total: nat, pages: nat, rest: string)
    ensures CaptionPages(Caption(total, pages) + rest) == Some(pages)
  {
    var dt, dp := Decimal(total), Decimal(pages);
    var p1 := "total ";
    var p2 := p1 + dt;
    var p3 := p2 + " results in ";
    var p4 := p3 + dp;
    var p5 := p4 + " pages";
    var s := Caption(total, pages) + rest;
    assert s[..|p5|] == p5;
    hide Caption, Decimal, HasAt, CaptionPages, FirstMatch, MatchAt, MatchTotal, MatchPages, DigitRun, DigitsValue, AllDigits;
    Split(s, p4, " pages");
    Split(s, p3, dp);
    Split(s, p2, " results in ");
    Split(s, p1, dt);
    Split(s, [], "total ");
    MatchAtOf(s, dt, dp);
    DecimalValue(pages);
    MatchAtStart(s, pages);
  }

  // ---------------------------------------------------------------------------
  // Fields and records
  // ---------------------------------------------------------------------------

  /**
   * `element.text.strip() if element else placeholder`: a present element gives its text
   * with the surrounding whitespace removed and nothing else; an absent one the placeholder.
   */
  function Field(element: Option<string>, placeholder: string): (r: string)
    ensures element.None? ==> r == placeholder
    ensures element.Some? ==> Text.Framed(element.value, r, Text.SkipSpaces(element.value, 0))
    ensures element.Some? && r != [] ==> !Text.IsSpace(r[0]) && !Text.IsSpace(r[|r| - 1])
  {
    match element
    case Some(t) => Text.Strip(t)
    case None => placeholder
  }

  /**
   * The record built from one product block: each field comes from its own element, so
   * a missing one gets its placeholder and never skips the record.
   */
  function ExtractProduct(b: ProductBlock): (p: Product)
    ensures b.name.None? ==> p.name == NoName
    ensures b.price.None? ==> p.price == NoPrice
    ensures b.description.None? ==> p.description == NoDescription
    ensures b.name.Some? ==> p.name == Text.Strip(b.name.value)
    ensures b.price.Some? ==> p.price == Text.Strip(b.price.value)
    ensures b.description.Some? ==> p.description == Text.Strip(b.description.value)
  {
    Product(Field(b.name, NoName), Field(b.price, NoPrice), Field(b.description, NoDescription))
  }

  /** One record per block, in block order. */
  function ExtractAll(blocks: seq<ProductBlock>): (r: seq<Product>)
    ensures |r| == |blocks|
    ensures forall i :: 0 <= i < |r| ==> r[i] == ExtractProduct(blocks[i])
  {
    if blocks == [] then []
    else ExtractAll(blocks[..|blocks| - 1]) + [ExtractProduct(blocks[|blocks| - 1])]
  }

  // ---------------------------------------------------------------------------
  // The crawl
  // ---------------------------------------------------------------------------

  /**
   * `total_pages` once page 1 has been processed: it keeps its initial 1 unless the page
   * has a paging caption that matches, and then it is that caption's page count.
   */
  function PagesFromCaption(page1: ProductPage): (n: nat)
    ensures n != 1 ==> page1.pagingMeta.Some? && CaptionPages(page1.pagingMeta.value) == Some(n)
    ensures page1.pagingMeta.Some? && CaptionPages(page1.pagingMeta.value).Some? ==>
      n == CaptionPages(page1.pagingMeta.value).value
  {
    match page1.pagingMeta
    case None => 1
    case Some(t) => CaptionPages(t).GetOr(1)
  }

  /**
   * The last page number the loop asks for when no request fails: at least 1, and other
   * than 1 only through the caption of a served page 1.
   */
  function LastPage(server: Server): (n: nat)
    ensures n >= 1
    ensures n != 1 ==> server(1).Some? && PagesFromCaption(server(1).value) == n
  {
    match server(1)
    case None => 1
    case Some(p) => if PagesFromCaption(p) == 0 then 1 else PagesFromCaption(p)
  }

  /** When page 1 is served, its caption alone decides the last page. */
  lemma LastPageOfServed(server: Server)
    requires server(1).Some?
    ensures var t := PagesFromCaption(server(1).value); LastPage(server) == if t == 0 then 1 else t
  {
  }

  /** The page numbers `1, 2, ..., n`. */
  function PagesUpTo(n: nat): (r: seq<nat>)
    ensures |r| == n
  {
    if n == 0 then [] else PagesUpTo(n - 1) + [n]
  }

  /** `PagesUpTo(n)` lists each of `1..n` once, in increasing order. */
  lemma {:induction false} PagesUpToValues(n: nat)
    ensures forall i :: 0 <= i < n ==> PagesUpTo(n)[i] == i + 1
  {
    if n > 0 {
      PagesUpToValues(n - 1);
      assert PagesUpTo(n) == PagesUpTo(n - 1) + [n];
    }
  }

  /**
   * `pages` is the sequence of page numbers one run of the crawler requests: 1, 2, 3,
   * ... in order, each once, never beyond the last page; every request but the last
   * succeeded, and the run stops early only because the last request failed.
   */
  ghost predicate IsRun(server: Server, pages: seq<nat>) {
    && 1 <= |pages| <= LastPage(server)
    && pages == PagesUpTo(|pages|)
    && (forall n :: 1 <= n < |pages| ==> server(n).Some?)
    && (|pages| < LastPage(server) ==> server(|pages|).None?)
  }

  /** The records of those of the pages `1..n` that were served, page after page. */
  function Collected(server: Server, n: nat): seq<Product> {
    if n == 0 then []
    else
      Collected(server, n - 1) +
      match server(n)
      case Some(p) => ExtractAll(p.blocks)
      case None => []
  }

  /** The number of product blocks on those of the pages `1..n` that were served. */
  function BlockCount(server: Server, n: nat): nat {
    if n == 0 then 0
    else
      BlockCount(server, n - 1) +
      match server(n)
      case Some(p) => |p.blocks|
      case None => 0
  }

  /** The `for product in products` loop: one record per product block, in order. */
  method ExtractPage(blocks: seq<ProductBlock>) returns (records: seq<Product>)
    ensures records == ExtractAll(blocks)
  {
    records := [];
    var i := 0;
    while i < |blocks|
      invariant 0 <= i <= |blocks|
      invariant records == ExtractAll(blocks[..i])
    {
      assert blocks[..i + 1][..i] == blocks[..i];
      records := records + [ExtractProduct(blocks[i])];
      i := i + 1;
    }
    assert blocks[..i] == blocks;
  }

  /** `scrape_products_improved`. */
  method ScrapeProducts(server: Server) returns (products: seq<Product>, pages: seq<nat>)
    ensures IsRun(server, pages)
    ensures products == Collected(server, |pages|)
  {
    hide CaptionPages, MatchAt, FirstMatch, Text.Framed, Text.Strip, ExtractProduct;
    products, pages := [], [];
    var currentPage: nat := 1;
    var totalPages: nat := 1;
    ghost var last := LastPage(server);
    while currentPage <= totalPages
      invariant currentPage == |pages| + 1
      invariant pages == PagesUpTo(|pages|)
      invariant forall n :: 1 <= n <= |pages| ==> server(n).Some?
      invariant pages == [] ==> totalPages == 1
      invariant pages != [] ==> last == if totalPages == 0 then 1 else totalPages
      invariant |pages| <= last
      invariant products == Collected(server, |pages|)
      decreases last + 1 - currentPage
    {
      pages := pages + [currentPage];
      var answer := server(currentPage);
      hide LastPage, PagesFromCaption;
      if answer.None? {
        break;
      }
      var page := answer.value;
      if currentPage == 1 {
        LastPageOfServed(server);
        match page.pagingMeta {
          case Some(meta) =>
            match CaptionPages(meta) {
              case Some(m) => totalPages := m;
              case None =>
            }
          case None =>
        }
      }
      var records := ExtractPage(page.blocks);
      products := products + records;
      currentPage := currentPage + 1;
    }
  }

  // ---------------------------------------------------------------------------
  // Properties of a run
  // ---------------------------------------------------------------------------

  /** Pages are requested from page 1 upwards, each exactly once. */
  lemma PagesInOrder(server: Server, pages: seq<nat>)
    requires IsRun(server, pages)
    ensures pages[0] == 1
    ensures forall i, j :: 0 <= i < j < |pages| ==> pages[i] < pages[j]
  {
    PagesUpToValues(|pages|);
  }

  /** With no failed request, the run asks for exactly `max(1, M)` pages (1 without a caption). */
  lemma AllServedRequestsAll(server: Server, pages: seq<nat>)
    requires IsRun(server, pages)
    requires forall n :: 1 <= n <= LastPage(server) ==> server(n).Some?
    ensures |pages| == LastPage(server)
    ensures pages[|pages| - 1] == LastPage(server)
  {
  }

  /** When page 1 is served without a caption that matches, only page 1 is requested. */
  lemma NoCaptionOnePage(server: Server, pages: seq<nat>)
    requires IsRun(server, pages)
    requires server(1).Some?
    requires server(1).value.pagingMeta.None? || CaptionPages(server(1).value.pagingMeta.value).None?
    ensures pages == [1]
  {
    assert LastPage(server) == 1;
    PagesUpToValues(1);
  }

  /** A run is determined by the server: two runs against the same server are the same run. */
  lemma RunIsUnique(server: Server, p1: seq<nat>, p2: seq<nat>)
    requires IsRun(server, p1) && IsRun(server, p2)
    ensures p1 == p2
  {
  }

  /** One record per block of every served page: nothing is skipped and nothing is added. */
  lemma {:induction false} CollectedLength(server: Server, n: nat)
    ensures |Collected(server, n)| == BlockCount(server, n)
  {
    hide Text.Framed, Text.Strip, ExtractProduct;
    if n > 0 {
      CollectedLength(server, n - 1);
    }
  }

  /** The records of earlier pages are never removed or changed by later pages. */
  lemma {:induction false} CollectedGrows(server: Server, m: nat, n: nat)
    requires m <= n
    ensures Collected(server, m) <= Collected(server, n)
    decreases n
  {
    hide Text.Framed, Text.Strip, ExtractProduct;
    if m < n {
      CollectedGrows(server, m, n - 1);
    }
  }

  /**
   * A listing whose page 1 says "total 15 results in 2 pages" and whose two pages hold
   * 8 and 7 products: the run requests pages 1 and 2 and returns 15 records.
   */
  lemma TwoPageListing(server: Server, pages: seq<nat>, rest: string)
    requires server(1).Some? && server(1).value.pagingMeta == Some(Caption(15, 2) + rest)
    requires |server(1).value.blocks| == 8
    requires server(2).Some? && |server(2).value.blocks| == 7
    requires IsRun(server, pages)
    ensures pages == [1, 2]
    ensures |Collected(server, |pages|)| == 15
  {
    hide Caption, CaptionPages, MatchAt, FirstMatch;
    CaptionRoundTrip(15, 2, rest);
    assert LastPage(server) == 2;
    assert |pages| == 2;
    CollectedLength(server, 2);
  }
}
