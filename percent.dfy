/** The text rule of `pct_to_float`: strip the '%' signs at both ends, drop
    every thousands separator '.', and turn the decimal comma into a point.
    The final `float()` is not part of this module. */
module PercentText {

  /** Number of occurrences of c in s. */
  function Count(s: string, c: char): nat {
    if s == [] then 0 else Count(s[..|s| - 1], c) + (if s[|s| - 1] == c then 1 else 0)
  }

  lemma {:induction false} CountConcat(a: string, b: string, c: char)
    ensures Count(a + b, c) == Count(a, c) + Count(b, c)
    decreases |b|
  {
    if b == [] {
      assert a + b == a;
    } else {
      assert (a + b)[..|a + b| - 1] == a + b[..|b| - 1];
      CountConcat(a, b[..|b| - 1], c);
    }
  }

  lemma {:induction false} CountAbsent(s: string, c: char)
    requires c !in s
    ensures Count(s, c) == 0
  {
    if s != [] {
      assert s[..|s| - 1] <= s;
      CountAbsent(s[..|s| - 1], c);
    }
  }

  /** `s.lstrip(c)`: drops the leading run of c. */
  function TrimStart(s: string, c: char): (r: string)
    ensures |r| <= |s| && r == s[|s| - |r|..]
    ensures forall k :: 0 <= k < |s| - |r| ==> s[k] == c
    ensures r == [] || r[0] != c
  {
    if |s| > 0 && s[0] == c then TrimStart(s[1..], c) else s
  }

  /** `s.rstrip(c)`: drops the trailing run of c. */
  function TrimEnd(s: string, c: char): (r: string)
    ensures |r| <= |s| && r == s[..|r|]
    ensures forall k :: |r| <= k < |s| ==> s[k] == c
    ensures r == [] || r[|r| - 1] != c
  {
    if |s| > 0 && s[|s| - 1] == c then TrimEnd(s[..|s| - 1], c) else s
  }

  /** `s.strip(c)` with a one-character argument. */
  function Strip(s: string, c: char): string {
    TrimEnd(TrimStart(s, c), c)
  }

  /** Stripping takes out one contiguous slice of s whose two sides consist
      of c only, and the slice neither starts nor ends with c. */
  lemma StripIsSlice(s: string, c: char)
    ensures exists i, j :: 0 <= i <= j <= |s| && Strip(s, c) == s[i..j]
                           && (forall k :: 0 <= k < i ==> s[k] == c)
                           && (forall k :: j <= k < |s| ==> s[k] == c)
    ensures Strip(s, c) == [] || (Strip(s, c)[0] != c && Strip(s, c)[|Strip(s, c)| - 1] != c)
  {
    var i, j := StripBounds(s, c);
  }

  /** Where the slice Strip keeps begins and ends. */
  lemma StripBounds(s: string, c: char) returns (i: nat, j: nat)
    ensures i <= j <= |s| && Strip(s, c) == s[i..j]
    ensures forall k :: 0 <= k < i ==> s[k] == c
    ensures forall k :: j <= k < |s| ==> s[k] == c
  {
    var t := TrimStart(s, c);
    var e := TrimEnd(t, c);
    i := |s| - |t|;
    j := i + |e|;
    assert t == s[i..];
    assert e == t[..|e|];
    assert t[..|e|] == s[i..j];
    forall k | j <= k < |s| ensures s[k] == c {
      assert s[k] == t[k - i];
    }
  }

  /** A count over a slice of s equals the count over s when the parts cut
      away do not contain the character. */
  lemma CountSlice(s: string, i: nat, j: nat, d: char)
    requires i <= j <= |s|
    requires d !in s[..i] && d !in s[j..]
    ensures Count(s[i..j], d) == Count(s, d)
  {
    var a, m, b := s[..i], s[i..j], s[j..];
    assert s == a + m + b;
    CountConcat(a + m, b, d);
    CountConcat(a, m, d);
    CountAbsent(a, d);
    CountAbsent(b, d);
  }

  /** Stripping c does not change how often any other character occurs. */
  lemma StripKeepsOtherCounts(s: string, c: char, d: char)
    requires c != d
    ensures Count(Strip(s, c), d) == Count(s, d)
  {
    var i, j := StripBounds(s, c);
    assert d !in s[..i];
    assert d !in s[j..];
    CountSlice(s, i, j, d);
  }

  /** `s.replace(c, "")`. */
  function DeleteAll(s: string, c: char): (r: string)
    ensures c !in r
    ensures forall d :: d != c ==> Count(r, d) == Count(s, d)
  {
    if s == [] then []
    else
      var p := s[..|s| - 1];
      var last := s[|s| - 1];
      var r := DeleteAll(p, c) + (if last == c then [] else [last]);
      assert forall d :: d != c ==> Count(r, d) == Count(s, d) by {
        forall d | d != c ensures Count(r, d) == Count(s, d) {
          CountConcat(DeleteAll(p, c), if last == c then [] else [last], d);
          assert s == p + [last];
          CountConcat(p, [last], d);
        }
      }
      r
  }

  /** Deleting c works piece by piece, so the characters that stay keep
      their order. */
  lemma {:induction false} DeleteAllConcat(a: string, b: string, c: char)
    ensures DeleteAll(a + b, c) == DeleteAll(a, c) + DeleteAll(b, c)
    decreases |b|
  {
    if b == [] {
      assert a + b == a;
    } else {
      var p := b[..|b| - 1];
      var last := b[|b| - 1];
      assert (a + b)[..|a + b| - 1] == a + p;
      assert (a + b)[|a + b| - 1] == last;
      DeleteAllConcat(a, p, c);
    }
  }

  /** A text without c loses nothing. */
  lemma {:induction false} DeleteAllAbsent(s: string, c: char)
    requires c !in s
    ensures DeleteAll(s, c) == s
  {
    if s != [] {
      assert s[..|s| - 1] <= s;
      DeleteAllAbsent(s[..|s| - 1], c);
      assert s == s[..|s| - 1] + [s[|s| - 1]];
    }
  }

  /** `s.replace(c, d)` with one-character arguments. */
  function ReplaceAll(s: string, c: char, d: char): (r: string)
    ensures |r| == |s|
    ensures forall k :: 0 <= k < |s| ==> r[k] == (if s[k] == c then d else s[k])
  {
    if s == [] then []
    else ReplaceAll(s[..|s| - 1], c, d) + [if s[|s| - 1] == c then d else s[|s| - 1]]
  }

  /** After replacing c by d, d occurs as often as c and d did before. */
  lemma {:induction false} ReplaceCount(s: string, c: char, d: char)
    requires c != d
    ensures Count(ReplaceAll(s, c, d), d) == Count(s, d) + Count(s, c)
    ensures Count(ReplaceAll(s, c, d), c) == 0
  {
    if s != [] {
      var p := s[..|s| - 1];
      ReplaceCount(p, c, d);
      assert ReplaceAll(s, c, d)[..|s| - 1] == ReplaceAll(p, c, d);
    }
  }

  /** The text `pct_to_float` hands to `float()`. */
  function PctText(s: string): string {
    ReplaceAll(DeleteAll(Strip(s, '%'), '.'), ',', '.')
  }

  /** The rewritten text has no comma left, as many points as the input had
      commas, and every other character as often as in the input, '%'
      aside. */
  lemma PctTextCounts(s: string)
    ensures ',' !in PctText(s)
    ensures Count(PctText(s), '.') == Count(s, ',')
    ensures forall d :: d != '.' && d != ',' && d != '%' ==> Count(PctText(s), d) == Count(s, d)
  {
    var stripped := Strip(s, '%');
    var deleted := DeleteAll(stripped, '.');
    ReplaceCount(deleted, ',', '.');
    CountAbsent(deleted, '.');
    StripKeepsOtherCounts(s, '%', ',');
    forall d | d != '.' && d != ',' && d != '%'
      ensures Count(PctText(s), d) == Count(s, d)
    {
      ReplaceKeepsOthers(deleted, ',', '.', d);
      StripKeepsOtherCounts(s, '%', d);
    }
  }

  /** Text with none of the characters `pct_to_float` rewrites. */
  predicate Plain(s: string) {
    '.' !in s && ',' !in s && '%' !in s
  }

  /** A trailing '%' after text that neither starts nor ends with one is
      the only thing `strip` removes. */
  lemma StripTrailingPercent(x: string)
    requires x != [] && x[0] != '%' && x[|x| - 1] != '%'
    ensures Strip(x + "%", '%') == x
  {
    var s := x + "%";
    assert TrimStart(s, '%') == s;
    assert s[..|s| - 1] == x;
  }

  /** The shape of `i + "," + f`: it cannot start or end with '%', and it
      holds a '.' only where i or f does. */
  lemma DecimalShape(i: string, f: string)
    requires '%' !in i && '%' !in f
    ensures var x := i + "," + f;
            && x != [] && x[0] != '%' && x[|x| - 1] != '%'
            && ('.' !in i && '.' !in f ==> '.' !in x)
  {
    var x := i + "," + f;
    if |i| > 0 { assert x[0] == i[0]; }
    if |f| > 0 { assert x[|x| - 1] == f[|f| - 1]; }
    if '.' !in i && '.' !in f {
      forall k | 0 <= k < |x| ensures x[k] != '.' {
        if k < |i| { assert x[k] == i[k]; }
        else if k > |i| { assert x[k] == f[k - |i| - 1]; }
      }
    }
  }

  /** PctText of a text ending in one '%' is the rewrite of the rest. */
  lemma PctTextOfPercent(x: string)
    requires x != [] && x[0] != '%' && x[|x| - 1] != '%'
    ensures PctText(x + "%") == ReplaceAll(DeleteAll(x, '.'), ',', '.')
  {
    StripTrailingPercent(x);
  }

  /** The partner of PctText: a number written the Brazilian way, with a
      decimal comma and a percent sign, becomes the same number with a
      decimal point ("12,5%" gives "12.5"). */
  lemma PctTextDecimal(i: string, f: string)
    requires Plain(i) && Plain(f)
    ensures PctText(i + "," + f + "%") == i + "." + f
  {
    var x := i + "," + f;
    DecimalShape(i, f);
    PctTextOfPercent(x);
    DeleteAllAbsent(x, '.');
    PctTextDecimalRewrite(i, f);
  }

  /** With a thousands separator as well: "1.234,5%" gives "1234.5". */
  lemma PctTextThousands(a: string, b: string, f: string)
    requires Plain(a) && Plain(b) && Plain(f)
    ensures PctText(a + "." + b + "," + f + "%") == a + b + "." + f
  {
    var y := b + "," + f;
    var x := a + "." + y;
    DecimalShape(b, f);
    ThousandsShape(a, y);
    calc {
      PctText(a + "." + b + "," + f + "%");
      { assert a + "." + b + "," + f + "%" == x + "%"; }
      PctText(x + "%");
      { PctTextOfPercent(x); }
      ReplaceAll(DeleteAll(x, '.'), ',', '.');
      { DeleteSeparator(a, y); DeleteAllAbsent(y, '.'); }
      ReplaceAll(a + y, ',', '.');
      { assert a + y == (a + b) + "," + f; }
      ReplaceAll((a + b) + "," + f, ',', '.');
      { PctTextDecimalRewrite(a + b, f); }
      (a + b) + "." + f;
    }
  }

  lemma ThousandsShape(a: string, y: string)
    requires '%' !in a && y != [] && y[|y| - 1] != '%'
    ensures var x := a + "." + y; x[0] != '%' && x[|x| - 1] != '%'
  {
    var x := a + "." + y;
    if |a| > 0 { assert x[0] == a[0]; } else { assert x[0] == '.'; }
    assert x[|x| - 1] == y[|y| - 1];
  }

  /** Deleting the one separator between two texts without one joins them. */
  lemma DeleteSeparator(a: string, y: string)
    requires '.' !in a
    ensures DeleteAll(a + "." + y, '.') == a + DeleteAll(y, '.')
  {
    var dy := "." + y;
    calc {
      DeleteAll(a + "." + y, '.');
      { assert a + "." + y == a + dy; }
      DeleteAll(a + dy, '.');
      { DeleteAllConcat(a, dy, '.'); }
      DeleteAll(a, '.') + DeleteAll(dy, '.');
      { DeleteAllAbsent(a, '.'); }
      a + DeleteAll(dy, '.');
      { DeleteAllConcat(".", y, '.'); DeleteAllOne('.'); }
      a + DeleteAll(y, '.');
    }
  }

  lemma DeleteAllOne(c: char)
    ensures DeleteAll([c], c) == []
  {
    assert [c][..0] == [];
  }

  /** The comma of a plain decimal becomes the point. */
  lemma PctTextDecimalRewrite(i: string, f: string)
    requires ',' !in i && ',' !in f
    ensures ReplaceAll(i + "," + f, ',', '.') == i + "." + f
  {
    var x := i + "," + f;
    var r := ReplaceAll(x, ',', '.');
    forall k | 0 <= k < |x| ensures r[k] == (i + "." + f)[k] {
      if k < |i| { assert x[k] == i[k]; }
      else if k > |i| { assert x[k] == f[k - |i| - 1]; }
    }
  }

  lemma {:induction false} ReplaceKeepsOthers(s: string, c: char, d: char, e: char)
    requires e != c && e != d
    ensures Count(ReplaceAll(s, c, d), e) == Count(s, e)
  {
    if s != [] {
      ReplaceKeepsOthers(s[..|s| - 1], c, d, e);
      assert ReplaceAll(s, c, d)[..|s| - 1] == ReplaceAll(s[..|s| - 1], c, d);
    }
  }
}
