/** String helpers shared by the modelled parsers: Rust's `str::split` on a
    single character, `str::replace` of a one-character pattern by "",
    `str::contains`, integer parsing in the syntax of `i32::from_str`, and the
    decimal rendering of `i32::to_string`. */
module Text {
  import opened Wrappers

  /** `s.split(c)`: the pieces between occurrences of `c`; never empty, and
      the empty string gives `[""]`. */
  function Split(s: string, c: char): (r: seq<string>)
    ensures |r| >= 1
    decreases |s|
  {
    if |s| == 0 then [""]
    else if s[0] == c then [""] + Split(s[1..], c)
    else
      var rest := Split(s[1..], c);
      [[s[0]] + rest[0]] + rest[1..]
  }

  /** `parts.join(c)` */
  function Join(parts: seq<string>, c: char): string
    requires |parts| >= 1
    decreases |parts|
  {
    if |parts| == 1 then parts[0] else parts[0] + [c] + Join(parts[1..], c)
  }

  /** Number of occurrences of `c` in `s`. */
  function Count(s: string, c: char): nat
  {
    if |s| == 0 then 0 else (if s[0] == c then 1 else 0) + Count(s[1..], c)
  }

  /** Joining the pieces with the separator gives back the string. */
  lemma {:induction false} JoinSplit(s: string, c: char)
    ensures Join(Split(s, c), c) == s
    decreases |s|
  {
    if |s| == 0 {
    } else if s[0] == c {
      JoinSplit(s[1..], c);
      var rest := Split(s[1..], c);
      assert Split(s, c) == [""] + rest;
      assert Split(s, c)[1..] == rest;
    } else {
      JoinSplit(s[1..], c);
      var rest := Split(s[1..], c);
      assert Split(s, c)[1..] == rest[1..];
      if |rest| == 1 {
      } else {
        assert Join(rest, c) == rest[0] + [c] + Join(rest[1..], c);
      }
    }
  }

  /** There is one more piece than there are separators, and no piece holds
      the separator. */
  lemma {:induction false} SplitPieces(s: string, c: char)
    ensures |Split(s, c)| == Count(s, c) + 1
    ensures forall k :: 0 <= k < |Split(s, c)| ==> c !in Split(s, c)[k]
    decreases |s|
  {
    if |s| > 0 {
      SplitPieces(s[1..], c);
    }
  }

  /** Every character of a piece is a character of the string split. */
  lemma {:induction false} SplitChars(s: string, c: char)
    ensures forall k, x :: 0 <= k < |Split(s, c)| && x in Split(s, c)[k] ==> x in s
    decreases |s|
  {
    if |s| > 0 {
      SplitChars(s[1..], c);
      var r, rest := Split(s, c), Split(s[1..], c);
      forall k, x | 0 <= k < |r| && x in r[k]
        ensures x in s
      {
        if s[0] == c {
          assert r[k] == if k == 0 then "" else rest[k - 1];
        } else if k == 0 {
          assert x == s[0] || x in rest[0];
        } else {
          assert r[k] == rest[k];
        }
        assert x == s[0] || x in s[1..];
      }
    }
  }

  /** Splitting a join of separator-free pieces gives the pieces back. */
  lemma {:induction false} SplitJoin(parts: seq<string>, c: char)
    requires |parts| >= 1
    requires forall k :: 0 <= k < |parts| ==> c !in parts[k]
    ensures Split(Join(parts, c), c) == parts
    decreases |parts|, |parts[0]|
  {
    if |parts[0]| > 0 {
      var p0 := parts[0];
      var shorter := parts[0 := p0[1..]];
      SplitJoin(shorter, c);
      assert Join(parts, c) == [p0[0]] + Join(shorter, c) by {
        if |parts| > 1 {
          assert parts[1..] == shorter[1..];
        }
      }
      var j := Join(parts, c);
      assert j[1..] == Join(shorter, c);
      assert j[0] == p0[0] && j[0] != c;
      assert [p0[0]] + shorter[0] == p0;
      assert parts == [[p0[0]] + shorter[0]] + shorter[1..];
    } else if |parts| > 1 {
      SplitJoin(parts[1..], c);
      var j := Join(parts, c);
      assert j == [c] + Join(parts[1..], c);
      assert j[1..] == Join(parts[1..], c);
    }
  }

  /** `s.replace(c, "")` for a one-character pattern. */
  function Remove(s: string, c: char): (r: string)
    ensures c !in r
    ensures |r| <= |s|
    ensures forall x :: x in r ==> x in s
  {
    if |s| == 0 then []
    else if s[0] == c then Remove(s[1..], c)
    else [s[0]] + Remove(s[1..], c)
  }

  /** A string without `c` is left as it is. */
  lemma {:induction false} RemoveAbsent(s: string, c: char)
    requires c !in s
    ensures Remove(s, c) == s
  {
    if |s| > 0 {
      RemoveAbsent(s[1..], c);
    }
  }

  /** `s.contains(sub)` */
  predicate Contains(s: string, sub: string)
    decreases |s|
  {
    sub <= s || (|s| > 0 && Contains(s[1..], sub))
  }

  predicate IsDigit(ch: char) { '0' <= ch <= '9' }

  predicate AllDigits(s: string) { forall k :: 0 <= k < |s| ==> IsDigit(s[k]) }

  /** Value of a string of decimal digits. */
  function DigitsValue(s: string): (v: nat)
    requires AllDigits(s)
    decreases |s|
  {
    if |s| == 0 then 0
    else 10 * DigitsValue(s[..|s| - 1]) + (s[|s| - 1] as int - '0' as int)
  }

  /** Integer parsing with the syntax of Rust's `i32::from_str`, without the
      range check: an optional `+` or `-` followed by one or more decimal
      digits; anything else is an error. */
  function ParseInt(s: string): (r: Option<int>)
    ensures r.Some? ==> |s| > 0
  {
    if |s| == 0 then None
    else if s[0] == '+' || s[0] == '-' then
      var ds := s[1..];
      var v: int := if AllDigits(ds) then DigitsValue(ds) else 0;
      if |ds| == 0 || !AllDigits(ds) then None
      else if s[0] == '-' then Some(-v)
      else Some(v)
    else if AllDigits(s) then Some(DigitsValue(s) as int)
    else None
  }

  const I32Min: int := -0x8000_0000
  const I32Max: int := 0x7fff_ffff

  /** `s.parse::<i32>()`: the syntax of `ParseInt`, and out-of-range values
      are errors. */
  function ParseI32(s: string): (r: Option<int>)
    ensures r.Some? ==> I32Min <= r.value <= I32Max && ParseInt(s) == r
    ensures r.None? ==> ParseInt(s).None? || ParseInt(s).value < I32Min || ParseInt(s).value > I32Max
  {
    match ParseInt(s)
    case Some(v) => if I32Min <= v <= I32Max then Some(v) else None
    case None => None
  }

  /** A string with neither sign character never parses to a negative number. */
  lemma UnsignedParse(s: string)
    requires '-' !in s && '+' !in s
    ensures ParseInt(s).Some? ==> ParseInt(s).value >= 0
  {
    if |s| > 0 {
      assert s[0] in s;
    }
  }

  /** Decimal digits of a natural number, most significant first. */
  function ShowNat(n: nat): (r: string)
    ensures |r| >= 1
    decreases n
  {
    if n < 10 then [('0' as int + n) as char]
    else ShowNat(n / 10) + [('0' as int + n % 10) as char]
  }

  /** `n.to_string()`: the decimal rendering, with a leading `-` when negative. */
  function ShowInt(n: int): (r: string)
  {
    if n < 0 then "-" + ShowNat(-n) else ShowNat(n)
  }

  /** The rendering of a natural number is all digits. */
  lemma {:induction false} ShowNatDigits(n: nat)
    ensures AllDigits(ShowNat(n))
    decreases n
  {
    if n >= 10 {
      ShowNatDigits(n / 10);
      var s, init := ShowNat(n), ShowNat(n / 10);
      forall k | 0 <= k < |s|
        ensures IsDigit(s[k])
      {
        if k < |init| {
          assert s[k] == init[k];
        }
      }
    }
  }

  lemma {:induction false} DigitsShowNat(n: nat)
    ensures AllDigits(ShowNat(n)) && DigitsValue(ShowNat(n)) == n
    decreases n
  {
    ShowNatDigits(n);
    if n >= 10 {
      DigitsShowNat(n / 10);
      var s := ShowNat(n);
      assert s[..|s| - 1] == ShowNat(n / 10);
    }
  }

  /** Rendering a number and parsing it back gives the number. */
  lemma ParseShowInt(n: int)
    ensures ParseInt(ShowInt(n)) == Some(n)
  {
    var m: nat := if n < 0 then -n else n;
    var digits := ShowNat(m);
    DigitsShowNat(m);
    assert digits[0] != '+' && digits[0] != '-' by { assert IsDigit(digits[0]); }
    if n < 0 {
      var s := ShowInt(n);
      assert s == "-" + digits;
      assert s[0] == '-' && s[1..] == digits;
    } else {
      assert ShowInt(n) == digits;
    }
  }
}
