/**
 * The two number renderings of the table list (main.go:113-145): item
 * counts with thousands separators and table sizes in binary units.
 */
module Formatting {
  import opened Wrappers
  import opened GoText

  /**
   * A decimal text cut into groups of three from the right, joined with
   * commas: everything before the last three characters is grouped the
   * same way.
   */
  function CommaGrouped(s: string): string
    decreases |s|
  {
    if |s| > 3 then CommaGrouped(s[..|s| - 3]) + "," + s[|s| - 3..] else s
  }

  function RemoveCommas(s: string): string
  {
    if s == [] then []
    else RemoveCommas(s[..|s| - 1]) + (if s[|s| - 1] == ',' then [] else [s[|s| - 1]])
  }

  /** No leading comma, and a comma exactly at every fourth position counted from the right. */
  predicate ThousandsGrouped(r: string)
  {
    && r != [] && r[0] != ','
    && forall i :: 0 <= i < |r| ==> (r[i] == ',' <==> (|r| - i) % 4 == 0)
  }

  /** `formatWithCommas`: the loop that prepends three-character groups, then `strings.Join(parts, ",")`. */
  method FormatWithCommas(n: int) returns (r: string)
    ensures r == CommaGrouped(FormatInt(n))
  {
    var s := FormatInt(n);
    ghost var grouped := CommaGrouped(s);
    var parts: seq<string> := [];
    while |s| > 3
      invariant |s| > 0
      invariant grouped == if parts == [] then CommaGrouped(s) else CommaGrouped(s) + "," + Join(parts, ",")
      decreases |s|
    {
      var group := s[|s| - 3..];
      JoinCons(group, parts, ",");
      assert CommaGrouped(s) == CommaGrouped(s[..|s| - 3]) + "," + group;
      parts := [group] + parts;
      s := s[..|s| - 3];
    }
    JoinCons(s, parts, ",");
    parts := [s] + parts;
    r := Join(parts, ",");
  }

  lemma JoinCons(first: string, parts: seq<string>, sep: string)
    ensures parts != [] ==> Join([first] + parts, sep) == first + sep + Join(parts, sep)
    ensures parts == [] ==> Join([first] + parts, sep) == first
  {
    assert ([first] + parts)[1..] == parts;
  }

  lemma {:induction false} RemoveCommasAppend(a: string, b: string)
    ensures RemoveCommas(a + b) == RemoveCommas(a) + RemoveCommas(b)
    decreases |b|
  {
    if b == [] {
      assert a + b == a;
    } else {
      var init := b[..|b| - 1];
      assert (a + b)[..|a + b| - 1] == a + init;
      RemoveCommasAppend(a, init);
    }
  }

  lemma {:induction false} RemoveCommasOfPlain(s: string)
    requires ',' !in s
    ensures RemoveCommas(s) == s
    decreases |s|
  {
    if s != [] {
      var init := s[..|s| - 1];
      RemoveCommasOfPlain(init);
      assert s == init + [s[|s| - 1]];
    }
  }

  lemma RemoveCommasAroundComma(a: string, b: string)
    ensures RemoveCommas(a + "," + b) == RemoveCommas(a) + RemoveCommas(b)
  {
    var comma := ",";
    assert comma[..|comma| - 1] == [];
    assert RemoveCommas(comma) == [];
    RemoveCommasAppend(a, comma);
    RemoveCommasAppend(a + comma, b);
  }

  /** Deleting the commas gives back the text that was grouped. */
  lemma {:induction false} CommaGroupedRoundTrip(s: string)
    requires ',' !in s
    ensures RemoveCommas(CommaGrouped(s)) == s
    decreases |s|
  {
    if |s| > 3 {
      var head, tail := s[..|s| - 3], s[|s| - 3..];
      assert head + tail == s;
      assert ',' !in head && ',' !in tail;
      var g := CommaGrouped(head);
      assert CommaGrouped(s) == g + "," + tail;
      CommaGroupedRoundTrip(head);
      RemoveCommasAroundComma(g, tail);
      RemoveCommasOfPlain(tail);
    } else {
      RemoveCommasOfPlain(s);
    }
  }

  /** Appending a comma and three digits to a grouped text keeps it grouped. */
  lemma GroupStep(g: string, tail: string)
    requires ThousandsGrouped(g) && |tail| == 3 && AllDigits(tail)
    ensures ThousandsGrouped(g + "," + tail)
  {
    var r := g + "," + tail;
    forall i | 0 <= i < |r| ensures (r[i] == ',' <==> (|r| - i) % 4 == 0) {
      if i < |g| {
        assert r[i] == g[i];
        assert |r| - i == (|g| - i) + 4;
      } else if i > |g| {
        assert r[i] == tail[i - |g| - 1];
        assert IsDigit(tail[i - |g| - 1]);
        assert 0 < |r| - i < 4;
      }
    }
  }

  /** A non-empty digit string comes out grouped by thousands, with one comma per full group after the first. */
  lemma {:induction false} CommaGroupedIsGrouped(s: string)
    requires s != [] && AllDigits(s)
    ensures ThousandsGrouped(CommaGrouped(s))
    ensures |CommaGrouped(s)| == |s| + (|s| - 1) / 3
    decreases |s|
  {
    if |s| > 3 {
      var head, tail := s[..|s| - 3], s[|s| - 3..];
      CommaGroupedIsGrouped(head);
      GroupStep(CommaGrouped(head), tail);
    } else {
      assert forall i :: 0 <= i < |s| ==> IsDigit(s[i]);
    }
  }

  /** For every non-negative count: grouped by thousands, and the digits are the count's own. */
  lemma NonNegativeCountGrouping(n: int)
    requires n >= 0
    ensures ThousandsGrouped(CommaGrouped(FormatInt(n)))
    ensures RemoveCommas(CommaGrouped(FormatInt(n))) == Decimal(n)
  {
    CommaGroupedIsGrouped(FormatInt(n));
    assert ',' !in FormatInt(n) by {
      assert forall i :: 0 <= i < |FormatInt(n)| ==> IsDigit(FormatInt(n)[i]);
    }
    CommaGroupedRoundTrip(FormatInt(n));
  }

  /**
   * The sign counts as a character of the text being grouped: a negative
   * number whose digit count is a multiple of three gets a comma right
   * after the sign.
   */
  lemma NegativeSignGrouping()
    ensures CommaGrouped(FormatInt(-123)) == "-,123"
    ensures CommaGrouped(FormatInt(-1234)) == "-1,234"
  {
    assert FormatInt(-123) == "-123" by {
      assert Decimal(123) == Decimal(12) + [DigitChar(3)];
      assert Decimal(12) == Decimal(1) + [DigitChar(2)];
    }
    assert FormatInt(-1234) == "-1234" by {
      assert Decimal(1234) == Decimal(123) + [DigitChar(4)];
      assert Decimal(123) == Decimal(12) + [DigitChar(3)];
      assert Decimal(12) == Decimal(1) + [DigitChar(2)];
    }
  }

  // ---------------------------------------------------------------------------
  // Sizes

  const KB: int := 1024
  const MB: int := 1024 * KB
  const GB: int := 1024 * MB

  datatype SizeUnit = Gigabytes | Megabytes | Kilobytes | Bytes

  /** The `switch` of `formatBytes`: the first threshold the size reaches. */
  function UnitFor(bytes: int): (u: SizeUnit)
    ensures u == Gigabytes <==> bytes >= GB
    ensures u == Megabytes <==> MB <= bytes < GB
    ensures u == Kilobytes <==> KB <= bytes < MB
    ensures u == Bytes <==> bytes < KB
  {
    if bytes >= GB then Gigabytes
    else if bytes >= MB then Megabytes
    else if bytes >= KB then Kilobytes
    else Bytes
  }

  function Divisor(u: SizeUnit): nat
  {
    match u
    case Gigabytes => GB
    case Megabytes => MB
    case Kilobytes => KB
    case Bytes => 1
  }

  function Suffix(u: SizeUnit): string
  {
    match u
    case Gigabytes => " GB"
    case Megabytes => " MB"
    case Kilobytes => " KB"
    case Bytes => " B"
  }

  /** The chosen unit is the largest whose size is at least one; below GB the quotient stays under 1024. */
  lemma UnitScales(bytes: int)
    ensures var u := UnitFor(bytes);
      && (u != Bytes ==> Divisor(u) <= bytes)
      && (u != Gigabytes ==> bytes < 1024 * Divisor(u))
  {
  }

  /**
   * `formatBytes`; `fixed2(b, d)` stands for `fmt.Sprintf("%.2f", float64(b)/float64(d))`,
   * which is not part of this model.
   */
  function FormatBytes(bytes: int, fixed2: (int, nat) -> string): (r: string)
  {
    var u := UnitFor(bytes);
    if u == Bytes then FormatInt(bytes) + Suffix(u) else fixed2(bytes, Divisor(u)) + Suffix(u)
  }

  /** Below one kilobyte the size is printed exactly, negative sizes included; above, it is a two-decimal quotient. */
  lemma FormatBytesCases(bytes: int, fixed2: (int, nat) -> string)
    ensures bytes < KB ==> FormatBytes(bytes, fixed2) == FormatInt(bytes) + " B"
    ensures bytes < KB ==> ParseInt64(FormatBytes(bytes, fixed2)[..|FormatBytes(bytes, fixed2)| - 2]) == Some(bytes) || !IsInt64(bytes)
    ensures KB <= bytes < MB ==> FormatBytes(bytes, fixed2) == fixed2(bytes, 1024) + " KB"
    ensures MB <= bytes < GB ==> FormatBytes(bytes, fixed2) == fixed2(bytes, 1024 * 1024) + " MB"
    ensures bytes >= GB ==> FormatBytes(bytes, fixed2) == fixed2(bytes, 1024 * 1024 * 1024) + " GB"
  {
    if bytes < KB && IsInt64(bytes) {
      var r := FormatBytes(bytes, fixed2);
      assert r[..|r| - 2] == FormatInt(bytes);
      ParseFormatInt64(bytes);
    }
  }
}
