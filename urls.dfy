/** The URLs the service sends to the catalog: `urllib.parse.quote_plus`,
    Python's decimal rendering of integers, and the three request URLs of
    `search`, `get_metadata` and `get_all_editions`. */
module Urls {
  import opened Wrappers
  import opened Catalog

  const BaseUrl: string := "https://www.worldcat.org/api"

  type byte = b: int | 0 <= b < 256

  /** The UTF-8 encoding of one Unicode scalar value. */
  function Utf8(c: char): (bs: seq<byte>)
    ensures 1 <= |bs| <= 4
    ensures |bs| == 1 <==> c as int < 0x80
  {
    var n := c as int;
    if n < 0x80 then [n]
    else if n < 0x800 then [0xC0 + n / 64, 0x80 + n % 64]
    else if n < 0x10000 then [0xE0 + n / 4096, 0x80 + (n / 64) % 64, 0x80 + n % 64]
    else [0xF0 + n / 262144, 0x80 + (n / 4096) % 64, 0x80 + (n / 64) % 64, 0x80 + n % 64]
  }

  /** Characters `quote_plus` never escapes: ASCII letters and digits and
      `_ . - ~`. */
  predicate IsAlwaysSafe(c: char) {
    ('A' <= c <= 'Z') || ('a' <= c <= 'z') || ('0' <= c <= '9') || c == '_' || c == '.' || c == '-' || c == '~'
  }

  /** Characters that can appear in the output of `quote_plus`. */
  predicate IsQuoted(c: char) {
    IsAlwaysSafe(c) || c == '+' || c == '%'
  }

  function HexDigit(v: nat): (c: char)
    requires v < 16
    ensures IsAlwaysSafe(c)
  {
    "0123456789ABCDEF"[v]
  }

  /** One byte as `quote_plus` writes it: kept when always safe, `+` for a
      space, `%XX` in upper-case hexadecimal otherwise. */
  function QuoteByte(b: byte): (r: string)
    ensures forall i :: 0 <= i < |r| ==> IsQuoted(r[i])
  {
    if b < 0x80 && IsAlwaysSafe(b as char) then [b as char]
    else if b == 0x20 then "+"
    else ['%', HexDigit(b / 16), HexDigit(b % 16)]
  }

  function QuoteBytes(bs: seq<byte>): (r: string)
    ensures forall i :: 0 <= i < |r| ==> IsQuoted(r[i])
  {
    if bs == [] then [] else QuoteByte(bs[0]) + QuoteBytes(bs[1..])
  }

  /** `urllib.parse.quote_plus(s)` with its defaults (`safe=''`, UTF-8):
      the result uses only letters, digits, `_ . - ~ + %`, so it never
      contains `&`, `=`, `:` or a space. */
  function QuotePlus(s: string): (r: string)
    ensures forall i :: 0 <= i < |r| ==> IsQuoted(r[i])
  {
    if s == [] then [] else QuoteBytes(Utf8(s[0])) + QuotePlus(s[1..])
  }

  /** A title of ASCII letters, digits and spaces, which is what
      preprocessing leaves of an ASCII title without `_ . - ~`, is sent with
      its spaces turned into `+` and nothing else changed. */
  lemma {:induction false} QuotePlusPlainText(s: string)
    requires forall i :: 0 <= i < |s| ==> IsAlwaysSafe(s[i]) || s[i] == ' '
    ensures |QuotePlus(s)| == |s|
    ensures forall i :: 0 <= i < |s| ==> QuotePlus(s)[i] == if s[i] == ' ' then '+' else s[i]
    decreases |s|
  {
    if s != [] {
      QuotePlusPlainText(s[1..]);
      assert Utf8(s[0]) == [s[0] as int];
      assert QuoteBytes([s[0] as int]) == QuoteByte(s[0] as int) + QuoteBytes([]);
      assert (s[0] as int) as char == s[0];
    }
  }

  // ---------------------------------------------------------------------
  // Decimal rendering, `str(n)` for a non-negative integer

  predicate IsDigit(c: char) {
    '0' <= c <= '9'
  }

  function DigitChar(d: nat): (c: char)
    requires d < 10
    ensures IsDigit(c) && c as int - '0' as int == d
  {
    ('0' as int + d) as char
  }

  /** `str(n)`: decimal digits, no leading zero. */
  function NatToString(n: nat): (s: string)
    ensures |s| >= 1
    ensures forall i :: 0 <= i < |s| ==> IsDigit(s[i])
    ensures |s| > 1 ==> s[0] != '0'
    decreases n
  {
    if n < 10 then [DigitChar(n)] else NatToString(n / 10) + [DigitChar(n % 10)]
  }

  /** The value of a string of decimal digits. */
  function ParseNat(s: string): nat
    requires forall i :: 0 <= i < |s| ==> IsDigit(s[i])
  {
    if s == [] then 0
    else
      var last := s[|s| - 1];
      assert IsDigit(last);
      10 * ParseNat(s[..|s| - 1]) + (last as int - '0' as int)
  }

  /** Reading back a rendered number gives the number. */
  lemma {:induction false} ParseNatToString(n: nat)
    ensures ParseNat(NatToString(n)) == n
    decreases n
  {
    if n >= 10 {
      ParseNatToString(n / 10);
      var s := NatToString(n);
      assert s[..|s| - 1] == NatToString(n / 10);
    }
  }

  /** Distinct numbers render differently, so keying the cache by
      `str(oclcNumber)` is keying it by the number. */
  lemma NatToStringInjective(m: nat, n: nat)
    requires NatToString(m) == NatToString(n)
    ensures m == n
  {
    ParseNatToString(m);
    ParseNatToString(n);
  }

  // ---------------------------------------------------------------------
  // Request URLs

  /** The value of the `q` parameter of a search: the quoted title, then
      ` AND au:` and the quoted author when the author is truthy. */
  function QueryClause(title: string, author: Option<string>): string {
    "ti:" + QuotePlus(title) + (if Truthy(author) then "+AND+au:" + QuotePlus(author.value) else "")
  }

  /** The filters after the `q` parameter: item type, then the year range
      (the year is inserted unquoted), each only when truthy. */
  function FilterClauses(itemType: Option<string>, year: Option<string>): string {
    (if Truthy(itemType) then "&itemType=" + QuotePlus(itemType.value) else "")
    + (if Truthy(year) then "&datePublished=" + year.value + "-" + year.value else "")
  }

  /** The URL `search` sends for a (preprocessed) title. */
  function SearchUrl(title: string, author: Option<string>, itemType: Option<string>, year: Option<string>): string {
    BaseUrl + "/search?q=" + QueryClause(title, author) + FilterClauses(itemType, year)
  }

  /** A search URL starts with the search endpoint and the quoted title. */
  lemma SearchUrlStartsWithTitle(title: string, author: Option<string>, itemType: Option<string>, year: Option<string>)
    ensures BaseUrl + "/search?q=" + ("ti:" + QuotePlus(title)) <= SearchUrl(title, author, itemType, year)
  {
    var author' := if Truthy(author) then "+AND+au:" + QuotePlus(author.value) else "";
    Regroup(BaseUrl + "/search?q=", "ti:" + QuotePlus(title), author', FilterClauses(itemType, year));
  }

  /** A search URL with a truthy year ends with the year filter
      `&datePublished=<year>-<year>`, so that filter comes last. */
  lemma SearchUrlEndsWithYear(title: string, author: Option<string>, itemType: Option<string>, year: Option<string>)
    requires Truthy(year)
    ensures var r := SearchUrl(title, author, itemType, year);
            var range := "&datePublished=" + year.value + "-" + year.value;
            |r| >= |range| && r[|r| - |range|..] == range
  {
    var types := if Truthy(itemType) then "&itemType=" + QuotePlus(itemType.value) else "";
    EndsWith(BaseUrl + "/search?q=" + QueryClause(title, author), types,
             "&datePublished=" + year.value + "-" + year.value);
  }

  /** Regrouping a four-part concatenation: the first two parts are a
      prefix of it. */
  lemma Regroup(a: string, b: string, c: string, d: string)
    ensures a + b <= a + (b + c) + d
  {
    assert a + (b + c) + d == (a + b) + (c + d);
  }

  /** A string built as `a + (b + t)` ends with `t`. */
  lemma EndsWith(a: string, b: string, t: string)
    ensures var r := a + (b + t);
            |r| >= |t| && r[|r| - |t|..] == t
  {
    var r := a + (b + t);
    assert r == (a + b) + t;
  }

  ghost predicate NoAmpersand(s: string) {
    forall i :: 0 <= i < |s| ==> s[i] != '&'
  }

  lemma NoAmpersandAppend(a: string, b: string)
    requires NoAmpersand(a) && NoAmpersand(b)
    ensures NoAmpersand(a + b)
  {
    forall i | 0 <= i < |a + b| ensures (a + b)[i] != '&' {
      if i >= |a| { assert (a + b)[i] == b[i - |a|]; }
    }
  }

  lemma QuotedHasNoAmpersand(s: string)
    ensures NoAmpersand(QuotePlus(s))
  {
    var q := QuotePlus(s);
    forall i | 0 <= i < |q| ensures q[i] != '&' {
      assert IsQuoted(q[i]);
    }
  }

  /** The text of `s` before its first `&`. */
  function BeforeAmpersand(s: string): (r: string)
    ensures |r| <= |s| && r == s[..|r|]
    ensures |r| < |s| ==> s[|r|] == '&'
    ensures NoAmpersand(r)
  {
    if s == [] || s[0] == '&' then [] else [s[0]] + BeforeAmpersand(s[1..])
  }

  lemma {:induction false} BeforeAmpersandAppend(a: string, b: string)
    requires NoAmpersand(a)
    ensures BeforeAmpersand(a + b) == a + BeforeAmpersand(b)
    decreases |a|
  {
    if a == [] {
      assert a + b == b;
    } else {
      assert (a + b)[0] == a[0] && (a + b)[1..] == a[1..] + b;
      BeforeAmpersandAppend(a[1..], b);
      assert a == [a[0]] + a[1..];
    }
  }

  /** The fixed text in front of the `q` value has no `&`. */
  lemma SearchBaseHasNoAmpersand()
    ensures NoAmpersand(BaseUrl + "/search?q=")
  {
  }

  /** The quoted author clause has no `&`. */
  lemma AuthorClauseHasNoAmpersand(author: string)
    ensures NoAmpersand("+AND+au:" + QuotePlus(author))
  {
    QuotedHasNoAmpersand(author);
    assert NoAmpersand("+AND+au:");
    NoAmpersandAppend("+AND+au:", QuotePlus(author));
  }

  /** The `q` value has no `&`, whatever the title and author. */
  lemma QueryValueHasNoAmpersand(title: string, author: Option<string>)
    ensures NoAmpersand(QueryClause(title, author))
  {
    var authorClause := if Truthy(author) then "+AND+au:" + QuotePlus(author.value) else "";
    if Truthy(author) {
      AuthorClauseHasNoAmpersand(author.value);
    }
    QuotedHasNoAmpersand(title);
    assert NoAmpersand("ti:");
    NoAmpersandAppend("ti:", QuotePlus(title));
    NoAmpersandAppend("ti:" + QuotePlus(title), authorClause);
  }

  lemma QueryClauseHasNoAmpersand(title: string, author: Option<string>)
    ensures NoAmpersand(BaseUrl + "/search?q=" + QueryClause(title, author))
  {
    SearchBaseHasNoAmpersand();
    QueryValueHasNoAmpersand(title, author);
    NoAmpersandAppend(BaseUrl + "/search?q=", QueryClause(title, author));
  }

  /** However the title and author read, they stay inside the `q`
      parameter: the URL up to its first `&` is the base path and the `q`
      clause; something follows only when a type or a year is given, and it
      is the item-type filter exactly when a type is. */
  lemma SearchUrlParameters(title: string, author: Option<string>, itemType: Option<string>, year: Option<string>)
    ensures BeforeAmpersand(SearchUrl(title, author, itemType, year))
            == BaseUrl + "/search?q=" + QueryClause(title, author)
    ensures var url, n := SearchUrl(title, author, itemType, year), |BaseUrl + "/search?q=" + QueryClause(title, author)|;
            && (n < |url| <==> Truthy(itemType) || Truthy(year))
            && (Truthy(itemType) <==> n + 1 < |url| && url[n + 1] == 'i')
  {
    var head := BaseUrl + "/search?q=" + QueryClause(title, author);
    var tail := FilterClauses(itemType, year);
    QueryClauseHasNoAmpersand(title, author);
    BeforeAmpersandAppend(head, tail);
    FilterClausesShape(itemType, year);
    var url := SearchUrl(title, author, itemType, year);
    assert url == head + tail;
    if |tail| > 1 {
      assert url[|head| + 1] == tail[1];
    }
  }

  /** The filters are empty when neither a type nor a year is truthy, and
      otherwise start with an `&` and then the item-type filter's `i`
      exactly when the type is truthy. */
  lemma FilterClausesShape(itemType: Option<string>, year: Option<string>)
    ensures var t := FilterClauses(itemType, year);
            && (|t| > 0 <==> Truthy(itemType) || Truthy(year))
            && (|t| > 0 ==> |t| > 1 && t[0] == '&')
            && (Truthy(itemType) <==> |t| > 1 && t[1] == 'i')
  {
    var t := FilterClauses(itemType, year);
    if Truthy(itemType) {
      assert t[0] == '&' && t[1] == 'i';
    } else if Truthy(year) {
      assert t[0] == '&' && t[1] == 'd';
    }
  }

  /** The URL `get_metadata` sends for an OCLC number: the number is the
      digits after `no:`, and reads back as that number. */
  function MetadataUrl(oclc: nat): (r: string)
    ensures var prefix := BaseUrl + "/search?q=no:";
            && prefix <= r
            && (forall i :: |prefix| <= i < |r| ==> IsDigit(r[i]))
            && ParseNat(r[|prefix|..]) == oclc
  {
    ParseNatToString(oclc);
    BaseUrl + "/search?q=no:" + NatToString(oclc)
  }

  /** Page size of the editions endpoint. */
  const PageSize: nat := 10

  /** The URL of one page of editions of `oclc`, starting at `offset`. */
  function EditionsUrl(oclc: string, offset: nat): string {
    BaseUrl + "/search-editions/" + oclc + "?limit=10&offset=" + NatToString(offset)
  }

  /** A page URL asks for at most ten records of `oclc`, and its offset
      reads back from the digits at the end. */
  lemma EditionsUrlOffset(oclc: string, offset: nat)
    ensures var prefix := BaseUrl + "/search-editions/" + oclc + "?limit=10&offset=";
            && prefix <= EditionsUrl(oclc, offset)
            && (forall i :: |prefix| <= i < |EditionsUrl(oclc, offset)| ==> IsDigit(EditionsUrl(oclc, offset)[i]))
            && ParseNat(EditionsUrl(oclc, offset)[|prefix|..]) == offset
  {
    var prefix := BaseUrl + "/search-editions/" + oclc + "?limit=10&offset=";
    assert EditionsUrl(oclc, offset)[|prefix|..] == NatToString(offset);
    ParseNatToString(offset);
  }

  /** Different offsets request different pages. */
  lemma EditionsUrlInjective(oclc: string, m: nat, n: nat)
    requires EditionsUrl(oclc, m) == EditionsUrl(oclc, n)
    ensures m == n
  {
    var prefix := BaseUrl + "/search-editions/" + oclc + "?limit=10&offset=";
    assert EditionsUrl(oclc, m)[|prefix|..] == NatToString(m);
    assert EditionsUrl(oclc, n)[|prefix|..] == NatToString(n);
    NatToStringInjective(m, n);
  }
}
