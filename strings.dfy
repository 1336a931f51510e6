/**
 * String helpers with Python's meaning restricted to ASCII text: white space, membership (`in`),
 * case mapping, `strip`, `split`/`join`, `int()` and `str()` of integers, and the
 * zero-padded `{:02d}` format.
 */
module Strings {
  import opened Wrappers

  /**
   * The ASCII subset of what `str.strip()` and the regex class `\s` treat as white space
   * (Python also strips the separators U+001C to U+001F, U+0085 and Unicode spaces).
   */
  const Whitespace: set<char> := {' ', '\t', '\n', '\r', '\U{000B}', '\U{000C}'}

  predicate IsSpace(c: char) { c in Whitespace }

  predicate IsDigit(c: char) { '0' <= c <= '9' }

  predicate AllDigits(s: string) { forall i :: 0 <= i < |s| ==> IsDigit(s[i]) }

  // ---------------------------------------------------------------------------
  // Searching
  // ---------------------------------------------------------------------------

  /** `sub[j..]` occurs in `s` at position `i + j`. */
  predicate MatchFrom(s: string, sub: string, i: nat, j: nat)
    decreases |sub| - j
  {
    j >= |sub| || (i + j < |s| && s[i + j] == sub[j] && MatchFrom(s, sub, i, j + 1))
  }

  /** `sub` occurs in `s` starting at index `i`. */
  predicate OccursAt(s: string, sub: string, i: nat) { MatchFrom(s, sub, i, 0) }

  /** `s.startswith(p)`. */
  predicate StartsWith(s: string, p: string) { OccursAt(s, p, 0) }

  /** `sub` occurs in `s` at some index `k >= i`. */
  predicate ContainsFrom(s: string, sub: string, i: nat)
    decreases |s| - i
  {
    OccursAt(s, sub, i) || (i < |s| && ContainsFrom(s, sub, i + 1))
  }

  /** Python's `sub in s`. */
  predicate Contains(s: string, sub: string) { ContainsFrom(s, sub, 0) }

  lemma {:induction false} MatchFromMeaning(s: string, sub: string, i: nat, j: nat)
    requires j <= |sub|
    ensures MatchFrom(s, sub, i, j) <==> j == |sub| || (i + |sub| <= |s| && s[i + j..i + |sub|] == sub[j..])
    decreases |sub| - j
  {
    if j < |sub| {
      MatchFromMeaning(s, sub, i, j + 1);
      if i + |sub| <= |s| {
        assert s[i + j..i + |sub|] == [s[i + j]] + s[i + j + 1..i + |sub|];
        assert sub[j..] == [sub[j]] + sub[j + 1..];
      }
    }
  }

  /** `OccursAt` is a slice comparison. */
  lemma OccursAtMeaning(s: string, sub: string, i: nat)
    ensures OccursAt(s, sub, i) <==> sub == [] || (i + |sub| <= |s| && s[i..i + |sub|] == sub)
  {
    MatchFromMeaning(s, sub, i, 0);
  }

  lemma {:induction false} ContainsFromMeaning(s: string, sub: string, i: nat)
    ensures ContainsFrom(s, sub, i) <==> exists k: nat :: i <= k && (k <= |s| || k == i) && OccursAt(s, sub, k)
    decreases |s| - i
  {
    if i < |s| {
      ContainsFromMeaning(s, sub, i + 1);
    } else if ContainsFrom(s, sub, i) {
      assert OccursAt(s, sub, i);
    } else {
      forall k: nat | i <= k && (k <= |s| || k == i)
        ensures !OccursAt(s, sub, k)
      {
        assert k == i;
      }
    }
  }

  // ---------------------------------------------------------------------------
  // Case mapping, removal and replacement
  // ---------------------------------------------------------------------------

  function UpperChar(c: char): char { if 'a' <= c <= 'z' then (c as int - 32) as char else c }

  function LowerChar(c: char): char { if 'A' <= c <= 'Z' then (c as int + 32) as char else c }

  /** `s.upper()` on ASCII letters. */
  function Upper(s: string): (r: string)
    ensures |r| == |s| && forall i :: 0 <= i < |s| ==> r[i] == UpperChar(s[i])
  {
    if s == [] then [] else [UpperChar(s[0])] + Upper(s[1..])
  }

  /** `s.lower()` on ASCII letters. */
  function Lower(s: string): (r: string)
    ensures |r| == |s| && forall i :: 0 <= i < |s| ==> r[i] == LowerChar(s[i])
  {
    if s == [] then [] else [LowerChar(s[0])] + Lower(s[1..])
  }

  /** Lower-casing forgets whether the text was upper-cased first. */
  lemma LowerUpper(s: string)
    ensures Lower(Upper(s)) == Lower(s)
  {
    assert forall i :: 0 <= i < |s| ==> LowerChar(UpperChar(s[i])) == LowerChar(s[i]);
  }

  lemma UpperLower(s: string)
    ensures Upper(Lower(s)) == Upper(s)
  {
    assert forall i :: 0 <= i < |s| ==> UpperChar(LowerChar(s[i])) == UpperChar(s[i]);
  }

  /** Text found in `s` is found, upper-cased, in `s.upper()`. */
  lemma ContainsUpper(s: string, sub: string)
    requires Contains(s, sub)
    ensures Contains(Upper(s), Upper(sub))
  {
    ContainsFromMeaning(s, sub, 0);
    var k: nat :| (k <= |s| || k == 0) && OccursAt(s, sub, k);
    OccursAtMeaning(s, sub, k);
    var u, v := Upper(s), Upper(sub);
    if sub != [] {
      forall i | 0 <= i < |sub| ensures u[k..k + |v|][i] == v[i] {
        assert s[k..k + |sub|][i] == s[k + i];
      }
    }
    OccursAtMeaning(u, v, k);
    ContainsFromMeaning(u, v, 0);
  }

  /** `re.sub("[cs]", "", s)`: drop every character of the class `cs`. */
  function RemoveChars(s: string, cs: set<char>): (r: string)
    ensures |r| <= |s|
    ensures forall i :: 0 <= i < |r| ==> r[i] !in cs
    ensures (forall i :: 0 <= i < |s| ==> s[i] !in cs) ==> r == s
  {
    if s == [] then [] else (if s[0] in cs then [] else [s[0]]) + RemoveChars(s[1..], cs)
  }

  lemma {:induction false} RemoveCharsSnoc(s: string, c: char, cs: set<char>)
    ensures RemoveChars(s + [c], cs) == RemoveChars(s, cs) + (if c in cs then [] else [c])
    decreases |s|
  {
    if s != [] {
      assert (s + [c])[1..] == s[1..] + [c];
      RemoveCharsSnoc(s[1..], c, cs);
    }
  }

  /** `re.sub("[cs]", by, s)` for a one-character replacement `sub`; with one class member, `str.replace`. */
  function ReplaceChars(s: string, cs: set<char>, sub: char): (r: string)
    ensures |r| == |s|
    ensures forall i :: 0 <= i < |s| ==> r[i] == if s[i] in cs then sub else s[i]
  {
    if s == [] then [] else [if s[0] in cs then sub else s[0]] + ReplaceChars(s[1..], cs, sub)
  }

  // ---------------------------------------------------------------------------
  // strip and white-space collapsing
  // ---------------------------------------------------------------------------

  /** `s.lstrip(cs)`: the longest suffix of `s` not starting with a character of `cs`. */
  function TrimLeft(s: string, cs: set<char>): (r: string)
    ensures |r| <= |s| && r == s[|s| - |r|..]
    ensures |r| > 0 ==> r[0] !in cs
    ensures forall i :: 0 <= i < |s| - |r| ==> s[i] in cs
  {
    if |s| > 0 && s[0] in cs then TrimLeft(s[1..], cs) else s
  }

  /** `s.rstrip(cs)`: the longest prefix of `s` not ending in a character of `cs`. */
  function TrimRight(s: string, cs: set<char>): (r: string)
    ensures |r| <= |s| && r == s[..|r|]
    ensures |r| > 0 ==> r[|r| - 1] !in cs
    ensures forall i :: |r| <= i < |s| ==> s[i] in cs
  {
    if |s| > 0 && s[|s| - 1] in cs then TrimRight(s[..|s| - 1], cs) else s
  }

  /** `s.strip(cs)`. */
  function StripChars(s: string, cs: set<char>): string { TrimRight(TrimLeft(s, cs), cs) }

  /** `s.strip()`. */
  function Strip(s: string): string { StripChars(s, Whitespace) }

  /** A string that neither starts nor ends with a character of `cs` is left alone by `strip`. */
  lemma StripCharsNoop(s: string, cs: set<char>)
    requires |s| > 0 ==> s[0] !in cs && s[|s| - 1] !in cs
    ensures StripChars(s, cs) == s
  {
  }

  /** `strip` removes the one blank put in front of a string that is already stripped. */
  lemma StripLeadingBlank(t: string)
    requires |t| > 0 && t[0] !in Whitespace && t[|t| - 1] !in Whitespace
    ensures Strip(" " + t) == t
  {
    assert (" " + t)[1..] == t;
    StripCharsNoop(t, Whitespace);
  }

  /**
   * `re.sub(r"\s+", " ", s)`: every run of white space becomes one blank, so the result
   * holds no white space other than single blanks.
   */
  function CollapseSpaces(s: string): (r: string)
    ensures |r| <= |s|
    ensures |r| == 0 <==> |s| == 0
    ensures |r| > 0 ==> (IsSpace(r[0]) <==> IsSpace(s[0]))
    ensures forall i :: 0 <= i < |r| && IsSpace(r[i]) ==> r[i] == ' '
    ensures forall i :: 0 <= i < |r| - 1 && r[i] == ' ' ==> r[i + 1] != ' '
    ensures (forall i :: 0 <= i < |s| ==> !IsSpace(s[i])) ==> r == s
    decreases |s|
  {
    if s == [] then []
    else if IsSpace(s[0]) then " " + CollapseSpaces(TrimLeft(s[1..], Whitespace))
    else [s[0]] + CollapseSpaces(s[1..])
  }

  /** Collapsing white space brings in no character other than a blank. */
  lemma {:induction false} CollapseSpacesKeeps(s: string, cs: set<char>)
    requires ' ' !in cs && forall i :: 0 <= i < |s| ==> s[i] !in cs
    ensures forall i :: 0 <= i < |CollapseSpaces(s)| ==> CollapseSpaces(s)[i] !in cs
    decreases |s|
  {
    if s != [] {
      if IsSpace(s[0]) {
        var t := TrimLeft(s[1..], Whitespace);
        assert forall i :: 0 <= i < |t| ==> t[i] == s[1..][|s[1..]| - |t| + i];
        CollapseSpacesKeeps(t, cs);
      } else {
        CollapseSpacesKeeps(s[1..], cs);
      }
    }
  }

  /** A string whose only white space is single blanks is its own collapse. */
  lemma {:induction false} CollapseSpacesNoop(s: string)
    requires forall i :: 0 <= i < |s| && IsSpace(s[i]) ==> s[i] == ' '
    requires forall i :: 0 <= i < |s| - 1 && s[i] == ' ' ==> s[i + 1] != ' '
    ensures CollapseSpaces(s) == s
    decreases |s|
  {
    if s != [] {
      var t := s[1..];
      if IsSpace(s[0]) {
        if t != [] {
          assert !IsSpace(t[0]);
          var u := TrimLeft(t, Whitespace);
          assert u == t;
        }
        CollapseSpacesNoop(t);
        assert s == " " + t;
      } else {
        CollapseSpacesNoop(t);
        assert s == [s[0]] + t;
      }
    }
  }

  // ---------------------------------------------------------------------------
  // split and join
  // ---------------------------------------------------------------------------

  /** `s.split(c)` for a one-character separator. */
  function Split(s: string, c: char): (r: seq<string>)
    ensures |r| >= 1
    ensures forall i :: 0 <= i < |r| ==> c !in r[i]
    decreases |s|
  {
    if s == [] then [""]
    else
      var rest := Split(s[1..], c);
      if s[0] == c then [""] + rest else [[s[0]] + rest[0]] + rest[1..]
  }

  /** `sep.join(parts)`. */
  function Join(parts: seq<string>, sep: string): string
  {
    if |parts| == 0 then "" else if |parts| == 1 then parts[0] else parts[0] + sep + Join(parts[1..], sep)
  }

  /** Joining one more piece adds the separator and the piece. */
  lemma {:induction false} JoinSnoc(parts: seq<string>, x: string, sep: string)
    ensures Join(parts + [x], sep) == if parts == [] then x else Join(parts, sep) + sep + x
    decreases |parts|
  {
    if |parts| > 1 {
      assert (parts + [x])[1..] == parts[1..] + [x];
      JoinSnoc(parts[1..], x, sep);
    }
  }

  /** Joining the pieces of a split gives back the original text. */
  lemma {:induction false} JoinSplit(s: string, c: char)
    ensures Join(Split(s, c), [c]) == s
    decreases |s|
  {
    if s != [] {
      var rest := Split(s[1..], c);
      JoinSplit(s[1..], c);
      if s[0] == c {
        assert Split(s, c) == [""] + rest;
        assert ([""] + rest)[1..] == rest;
        assert s == [c] + s[1..];
      } else {
        var r := [[s[0]] + rest[0]] + rest[1..];
        assert Split(s, c) == r;
        if |rest| == 1 {
          assert s == [s[0]] + s[1..];
        } else {
          assert r[1..] == rest[1..];
          assert Join(rest, [c]) == rest[0] + [c] + Join(rest[1..], [c]);
          assert s == [s[0]] + s[1..];
        }
      }
    }
  }

  lemma {:induction false} SplitNoSeparator(p: string, c: char)
    requires c !in p
    ensures Split(p, c) == [p]
    decreases |p|
  {
    if p != [] {
      SplitNoSeparator(p[1..], c);
      assert p == [p[0]] + p[1..];
    }
  }

  lemma {:induction false} SplitAfterPiece(p: string, c: char, t: string)
    requires c !in p
    ensures Split(p + [c] + t, c) == [p] + Split(t, c)
    decreases |p|
  {
    if p == [] {
      assert p + [c] + t == [c] + t;
      assert ([c] + t)[1..] == t;
    } else {
      var s := p + [c] + t;
      assert s[1..] == p[1..] + [c] + t;
      SplitAfterPiece(p[1..], c, t);
      assert p == [p[0]] + p[1..];
    }
  }

  /** Splitting a join of separator-free pieces gives back the pieces. */
  lemma {:induction false} SplitJoin(parts: seq<string>, c: char)
    requires |parts| >= 1
    requires forall i :: 0 <= i < |parts| ==> c !in parts[i]
    ensures Split(Join(parts, [c]), c) == parts
    decreases |parts|
  {
    if |parts| == 1 {
      SplitNoSeparator(parts[0], c);
    } else {
      SplitJoin(parts[1..], c);
      SplitAfterPiece(parts[0], c, Join(parts[1..], [c]));
      assert parts == [parts[0]] + parts[1..];
    }
  }

  /** Splitting two separator-free pieces joined by the separator gives back the two pieces. */
  lemma SplitTwo(a: string, b: string, c: char)
    requires c !in a && c !in b
    ensures Split(a + [c] + b, c) == [a, b]
  {
    var parts := [a, b];
    assert parts[1..] == [b];
    assert Join(parts, [c]) == a + [c] + b;
    SplitJoin(parts, c);
  }

  /** The index of the first `c` in `s`, which is what `s.split(c, 1)` splits at. */
  function IndexOf(s: string, c: char): (r: Option<nat>)
    ensures r.Some? ==> r.value < |s| && s[r.value] == c && c !in s[..r.value]
    ensures r.None? ==> c !in s
  {
    if s == [] then None
    else if s[0] == c then Some(0)
    else match IndexOf(s[1..], c)
      case None => None
      case Some(k) => assert s[..k + 1] == [s[0]] + s[1..][..k]; Some(k + 1)
  }

  // ---------------------------------------------------------------------------
  // Integers and text
  // ---------------------------------------------------------------------------

  function DigitChar(d: nat): char
    requires d < 10
  {
    ('0' as int + d) as char
  }

  /** `str(n)` for a natural number. */
  function NatToString(n: nat): (r: string)
    ensures |r| >= 1 && AllDigits(r)
  {
    if n < 10 then [DigitChar(n)] else NatToString(n / 10) + [DigitChar(n % 10)]
  }

  /** `str(n)`. */
  function IntToString(n: int): (r: string)
    ensures |r| >= 1
    ensures forall i :: 0 <= i < |r| ==> IsDigit(r[i]) || (i == 0 && r[i] == '-')
  {
    if n < 0 then "-" + NatToString(-n) else NatToString(n)
  }

  /** The value of a string of decimal digits. */
  function DigitsValue(s: string): nat
    requires AllDigits(s)
  {
    if s == [] then 0 else 10 * DigitsValue(s[..|s| - 1]) + (s[|s| - 1] as int - '0' as int)
  }

  lemma {:induction false} DigitsValueOfNatToString(n: nat)
    ensures DigitsValue(NatToString(n)) == n
  {
    if n >= 10 {
      var s := NatToString(n);
      assert s[..|s| - 1] == NatToString(n / 10);
      DigitsValueOfNatToString(n / 10);
    }
  }

  /** An optional sign followed by at least one decimal digit, with no white space around. */
  function ParseSigned(t: string): (r: Option<int>)
  {
    if |t| > 0 && (t[0] == '-' || t[0] == '+') then
      if |t| > 1 && AllDigits(t[1..]) then
        var v: int := DigitsValue(t[1..]);
        Some(if t[0] == '-' then -v else v)
      else None
    else if |t| > 0 && AllDigits(t) then Some(DigitsValue(t))
    else None
  }

  /**
   * The ASCII subset of Python's `int(s)` on text: surrounding white space, an optional
   * sign and at least one decimal digit; anything else raises `ValueError` (here: `None`).
   * Underscores between digits (`int("1_000")`) and non-ASCII digits are not accepted.
   */
  function ParseInt(s: string): Option<int>
  {
    ParseSigned(Strip(s))
  }

  /** `[line.strip() for line in lines]`. */
  function StripAll(lines: seq<string>): (r: seq<string>)
    ensures |r| == |lines| && forall i :: 0 <= i < |lines| ==> r[i] == Strip(lines[i])
  {
    seq(|lines|, i requires 0 <= i < |lines| => Strip(lines[i]))
  }

  /** Text without white space at either end is parsed as it stands. */
  lemma ParseIntUnpadded(s: string)
    requires |s| > 0 ==> !IsSpace(s[0]) && !IsSpace(s[|s| - 1])
    ensures ParseInt(s) == ParseSigned(s)
  {
    StripCharsNoop(s, Whitespace);
  }

  /** `int()` of a plain digit string is its decimal value. */
  lemma ParseIntDigits(s: string, v: int)
    requires |s| > 0 && AllDigits(s) && DigitsValue(s) == v
    ensures ParseInt(s) == Some(v)
  {
    assert IsDigit(s[0]) && IsDigit(s[|s| - 1]);
    ParseIntUnpadded(s);
  }

  lemma ParseSignedNegative(d: string)
    requires |d| > 0 && AllDigits(d)
    ensures ParseSigned("-" + d) == Some(-(DigitsValue(d) as int))
  {
    var s := "-" + d;
    assert s[1..] == d;
  }

  /** `int()` of a minus sign followed by digits is the negated value. */
  lemma ParseIntNegative(d: string, v: int)
    requires |d| > 0 && AllDigits(d) && DigitsValue(d) == v
    ensures ParseInt("-" + d) == Some(-v)
  {
    var s := "-" + d;
    assert IsDigit(s[|s| - 1]);
    ParseIntUnpadded(s);
    ParseSignedNegative(d);
  }

  /** `int(str(n)) == n`. */
  lemma IntToStringRoundTrip(n: int)
    ensures ParseInt(IntToString(n)) == Some(n)
  {
    if n < 0 {
      DigitsValueOfNatToString(-n);
      ParseIntNegative(NatToString(-n), -n);
    } else {
      DigitsValueOfNatToString(n);
      ParseIntDigits(NatToString(n), n);
    }
  }

  /** `str(n)` of a positive number does not start with a zero. */
  lemma {:induction false} NatToStringLead(n: nat)
    requires n >= 1
    ensures NatToString(n)[0] != '0'
  {
    if n >= 10 {
      NatToStringLead(n / 10);
      assert NatToString(n)[0] == NatToString(n / 10)[0];
    }
  }

  /**
   * The shape of `f"{n:02d}"`: at least two characters; either a minus sign followed by
   * digits without a leading zero, or digits only, with a leading zero only as padding to
   * two characters.
   */
  predicate Padded2(t: string)
  {
    |t| >= 2 &&
    if t[0] == '-' then AllDigits(t[1..]) && t[1] != '0'
    else AllDigits(t) && (|t| > 2 ==> t[0] != '0')
  }

  /** `f"{n:02d}"`: at least two characters, zero-padded; a negative number is not padded. */
  function Pad2(n: int): (r: string)
    ensures ParseInt(r) == Some(n)
    ensures |r| >= 2 && Padded2(r) && (r[0] == '-' <==> n < 0)
    ensures 0 <= n < 100 ==> |r| == 2 && AllDigits(r)
    ensures ':' !in r && ' ' !in r
  {
    if 0 <= n < 10 then
      Pad2Small(n);
      "0" + NatToString(n)
    else
      Pad2Plain(n);
      Pad2Shape(n);
      IntToString(n)
  }

  lemma Pad2Shape(n: int)
    requires !(0 <= n < 10)
    ensures var r := IntToString(n);
      |r| >= 2 && Padded2(r) && (r[0] == '-' <==> n < 0)
  {
    var r := IntToString(n);
    if n < 0 {
      NatToStringLead(-n);
      assert r[1..] == NatToString(-n);
    } else {
      NatToStringLead(n);
      assert r == NatToString(n) && |r| >= 2;
    }
  }

  lemma Pad2Small(n: int)
    requires 0 <= n < 10
    ensures var r := "0" + NatToString(n);
      ParseInt(r) == Some(n) && |r| == 2 && AllDigits(r) && Padded2(r) && r[0] == '0' &&
      ':' !in r && ' ' !in r
  {
    var r := "0" + NatToString(n);
    assert r == ['0', DigitChar(n)];
    assert r[..|r| - 1] == "0";
    assert DigitsValue("0") == 10 * DigitsValue("") + 0;
    ParseIntDigits(r, n);
  }

  lemma Pad2Plain(n: int)
    requires !(0 <= n < 10)
    ensures var r := IntToString(n);
      ParseInt(r) == Some(n) && |r| >= 2 && (10 <= n < 100 ==> |r| == 2 && AllDigits(r)) &&
      ':' !in r && ' ' !in r
  {
    IntToStringRoundTrip(n);
    if 10 <= n < 100 {
      TwoDigits(n);
    }
    IntToStringPlain(n);
  }

  lemma TwoDigits(n: int)
    requires 10 <= n < 100
    ensures |IntToString(n)| == 2 && AllDigits(IntToString(n))
  {
    assert IntToString(n) == NatToString(n / 10) + [DigitChar(n % 10)];
  }

  /** `str(n)` holds neither a colon nor a blank. */
  lemma IntToStringPlain(n: int)
    ensures ':' !in IntToString(n) && ' ' !in IntToString(n)
  {
    var r := IntToString(n);
    assert forall i :: 0 <= i < |r| ==> r[i] != ':' && r[i] != ' ';
  }

  /** The characters of a padded number are digits and a leading minus sign. */
  lemma Pad2Chars(n: int)
    ensures forall i :: 0 <= i < |Pad2(n)| ==> IsDigit(Pad2(n)[i]) || Pad2(n)[i] == '-'
  {
    var r := Pad2(n);
    if r[0] == '-' {
      forall i | 1 <= i < |r|
        ensures IsDigit(r[i])
      {
        assert r[i] == r[1..][i - 1];
      }
    }
  }

  /** `f"{h:02d}:{m:02d}:{s:02d}"`. */
  function Clock(h: int, m: int, s: int): string { Join([Pad2(h), Pad2(m), Pad2(s)], ":") }

  /** The three fields of a clock string split back at `:` and parse to the numbers shown. */
  lemma ClockFields(h: int, m: int, s: int)
    ensures Split(Clock(h, m, s), ':') == [Pad2(h), Pad2(m), Pad2(s)]
  {
    var parts := [Pad2(h), Pad2(m), Pad2(s)];
    forall i | 0 <= i < |parts|
      ensures ':' !in parts[i]
    {
      var x := if i == 0 then h else if i == 1 then m else s;
      assert parts[i] == Pad2(x);
    }
    assert Clock(h, m, s) == Join(parts, [':']);
    SplitJoin(parts, ':');
  }

  /**
   * `divmod` by 3600 and then by 60, printed as `{:02d}:{:02d}:{:02d}`. Python's `divmod`
   * floors, which for a positive divisor is Dafny's `/` and `%`.
   */
  function Hms(seconds: int): (r: string)
    ensures Split(r, ':') == [Pad2(seconds / 3600), Pad2(seconds % 3600 / 60), Pad2(seconds % 3600 % 60)]
  {
    ClockFields(seconds / 3600, seconds % 3600 / 60, seconds % 3600 % 60);
    Clock(seconds / 3600, seconds % 3600 / 60, seconds % 3600 % 60)
  }

  /**
   * Reading an `Hms` string back: three fields, each parsing to an integer, the first
   * shaped as `{:02d}` prints (`Padded2`: zero-padded to two digits, a minus sign for a
   * negative number, no other sign and no blanks), the last two exactly two decimal digits
   * and below 60, and together worth the original number of seconds.
   */
  predicate HmsOf(r: string, seconds: int)
  {
    HmsValue(r, seconds) &&
    var f := Split(r, ':');
    HmsShape(f[0], f[1], f[2]) && 0 <= ParseInt(f[1]).value < 60 && 0 <= ParseInt(f[2]).value < 60
  }

  /** Three fields, parsing to integers h, m and s with h·3600 + m·60 + s the given seconds. */
  predicate HmsValue(r: string, seconds: int)
  {
    var f := Split(r, ':');
    |f| == 3 && ParseInt(f[0]).Some? && ParseInt(f[1]).Some? && ParseInt(f[2]).Some? &&
    ParseInt(f[0]).value * 3600 + ParseInt(f[1]).value * 60 + ParseInt(f[2]).value == seconds
  }

  /** Hours as `{:02d}` prints them; minutes and seconds exactly two decimal digits. */
  predicate HmsShape(h: string, m: string, s: string)
  {
    Padded2(h) && |m| == 2 && |s| == 2 && AllDigits(m) && AllDigits(s)
  }

  lemma HmsMeaning(seconds: int)
    ensures HmsOf(Hms(seconds), seconds)
  {
    var h, rem := seconds / 3600, seconds % 3600;
    var m, sec := rem / 60, rem % 60;
    assert seconds == h * 3600 + rem;
    assert rem == m * 60 + sec;
    assert 0 <= m < 60 && 0 <= sec < 60;
    var f := Split(Hms(seconds), ':');
    assert f == [Pad2(h), Pad2(m), Pad2(sec)];
    assert ParseInt(f[0]) == Some(h) && ParseInt(f[1]) == Some(m) && ParseInt(f[2]) == Some(sec);
  }
}
