/** String helpers with Python's semantics: whitespace stripping, substring
    search, splitting on a separator and the int() conversion of a string. */
module Text {

  datatype Option<+T> = None | Some(value: T)

  /** Python's str.isspace for one character: the ASCII whitespace and the
      separators Python treats as whitespace. */
  predicate IsSpace(c: char)
  {
    c == ' ' || ('\t' <= c <= '\r') || ('\U{1C}' <= c <= '\U{1F}')
    || c == '\U{85}' || c == '\U{A0}' || c == '\U{1680}'
    || ('\U{2000}' <= c <= '\U{200A}') || c == '\U{2028}' || c == '\U{2029}'
    || c == '\U{202F}' || c == '\U{205F}' || c == '\U{3000}'
  }

  predicate AllSpace(s: string)
  {
    forall i :: 0 <= i < |s| ==> IsSpace(s[i])
  }

  /** Python's str.lstrip(): drops the leading whitespace. */
  function TrimStart(s: string): string
  {
    if s != [] && IsSpace(s[0]) then TrimStart(s[1..]) else s
  }

  /** Python's str.rstrip(): drops the trailing whitespace. */
  function TrimEnd(s: string): string
  {
    if s != [] && IsSpace(s[|s| - 1]) then TrimEnd(s[..|s| - 1]) else s
  }

  /** Python's str.strip(). */
  function Strip(s: string): string
  {
    TrimEnd(TrimStart(s))
  }

  /** lstrip keeps a suffix that does not start with whitespace and drops
      only whitespace. */
  lemma {:induction false} TrimStartSpec(s: string)
    ensures var r := TrimStart(s);
      && |r| <= |s| && r == s[|s| - |r|..]
      && (r == [] || !IsSpace(r[0]))
      && AllSpace(s[..|s| - |r|])
  {
    if s != [] && IsSpace(s[0]) {
      TrimStartSpec(s[1..]);
      var r := TrimStart(s);
      assert s[1..][|s| - 1 - |r|..] == s[|s| - |r|..];
      assert forall i :: 1 <= i < |s| - |r| ==> s[i] == s[1..][..|s| - 1 - |r|][i - 1];
    }
  }

  /** rstrip keeps a prefix that does not end in whitespace and drops only
      whitespace. */
  lemma {:induction false} TrimEndSpec(s: string)
    ensures var r := TrimEnd(s);
      && |r| <= |s| && r == s[..|r|]
      && (r == [] || !IsSpace(r[|r| - 1]))
      && AllSpace(s[|r|..])
  {
    if s != [] && IsSpace(s[|s| - 1]) {
      TrimEndSpec(s[..|s| - 1]);
      var r := TrimEnd(s);
      assert s[..|s| - 1][..|r|] == s[..|r|];
      assert forall i :: |r| <= i < |s| - 1 ==> s[i] == s[..|s| - 1][|r|..][i - |r|];
    }
  }

  /** Strip(s) is the part of s starting at lo, with only whitespace before
      and after it. */
  predicate StripsAt(s: string, lo: int)
  {
    var r := Strip(s);
    && 0 <= lo <= |s| - |r| && r == s[lo..lo + |r|]
    && AllSpace(s[..lo]) && AllSpace(s[lo + |r|..])
  }

  /** Strip keeps a contiguous middle part of its input, has no whitespace at
      either end, and drops only whitespace. */
  lemma StripSpec(s: string)
    ensures exists lo :: StripsAt(s, lo)
    ensures Trimmed(Strip(s))
  {
    var t := TrimStart(s);
    var r := TrimEnd(t);
    TrimStartSpec(s);
    TrimEndSpec(t);
    var lo := |s| - |t|;
    assert t[..|r|] == s[lo..lo + |r|];
    assert t[|r|..] == s[lo + |r|..];
    assert StripsAt(s, lo);
  }

  /** No whitespace at either end. */
  predicate Trimmed(s: string)
  {
    s == [] || (!IsSpace(s[0]) && !IsSpace(s[|s| - 1]))
  }

  /** A string without surrounding whitespace is its own strip. */
  lemma StripTrimmed(s: string)
    requires Trimmed(s)
    ensures Strip(s) == s
  {
  }

  /** The strip of a string is empty exactly when the string is all whitespace. */
  lemma StripEmptyIff(s: string)
    ensures Strip(s) == [] <==> AllSpace(s)
  {
    var t := TrimStart(s);
    TrimStartSpec(s);
    TrimEndSpec(t);
    if !AllSpace(s) {
      assert s == s[..|s| - |t|] + t;
    }
  }

  /** Python's `sub in s`, by scanning each start position. */
  function Contains(s: string, sub: string): bool
  {
    if |sub| <= |s| && s[..|sub|] == sub then true
    else if s == [] then false
    else Contains(s[1..], sub)
  }

  /** The occurrence relation Contains decides. */
  ghost predicate Occurs(s: string, sub: string)
  {
    exists i :: OccursAt(s, sub, i)
  }

  predicate OccursAt(s: string, sub: string, i: int)
  {
    0 <= i <= |s| - |sub| && s[i..i + |sub|] == sub
  }

  lemma {:induction false} ContainsIff(s: string, sub: string)
    ensures Contains(s, sub) <==> Occurs(s, sub)
  {
    if |sub| <= |s| && s[..|sub|] == sub {
      assert OccursAt(s, sub, 0);
    } else if s == [] {
    } else {
      ContainsIff(s[1..], sub);
      if |sub| <= |s| {
        assert s[0..|sub|] == s[..|sub|];
      }
      assert !OccursAt(s, sub, 0);
      if Occurs(s[1..], sub) {
        var i :| OccursAt(s[1..], sub, i);
        OccursShift(s, sub, i);
      }
      if Occurs(s, sub) {
        var i :| OccursAt(s, sub, i);
        OccursShift(s, sub, i - 1);
      }
    }
  }

  /** An occurrence in the tail is an occurrence one place further on. */
  lemma OccursShift(s: string, sub: string, i: nat)
    requires s != []
    ensures OccursAt(s[1..], sub, i) <==> OccursAt(s, sub, i + 1)
  {
    if 0 <= i <= |s| - 1 - |sub| {
      assert s[1..][i..i + |sub|] == s[i + 1..i + 1 + |sub|];
    }
  }

  /** Python's str.split(sep) for a one-character separator. */
  function Split(s: string, sep: char): (parts: seq<string>)
    ensures |parts| >= 1
    ensures forall k :: 0 <= k < |parts| ==> sep !in parts[k]
  {
    if s == [] then [[]]
    else
      var rest := Split(s[1..], sep);
      if s[0] == sep then [[]] + rest
      else [[s[0]] + rest[0]] + rest[1..]
  }

  /** Python's sep.join(parts). */
  function Join(parts: seq<string>, sep: char): string
    requires |parts| >= 1
  {
    if |parts| == 1 then parts[0] else parts[0] + [sep] + Join(parts[1..], sep)
  }

  /** Splitting and joining are inverse: joining the pieces gives back the input. */
  lemma {:induction false} JoinSplit(s: string, sep: char)
    ensures Join(Split(s, sep), sep) == s
  {
    if s != [] {
      JoinSplit(s[1..], sep);
      var rest := Split(s[1..], sep);
      if s[0] != sep {
        if |rest| > 1 {
          assert Join(Split(s, sep), sep) == [s[0]] + rest[0] + [sep] + Join(rest[1..], sep);
        }
      }
    }
  }

  /** ...and splitting what was joined gives back the pieces when none of
      them holds the separator. */
  lemma {:induction false} SplitJoin(parts: seq<string>, sep: char)
    requires |parts| >= 1
    requires forall k :: 0 <= k < |parts| ==> sep !in parts[k]
    ensures Split(Join(parts, sep), sep) == parts
  {
    if |parts| == 1 {
      SplitNoSep(parts[0], sep);
    } else {
      var j := Join(parts[1..], sep);
      SplitJoin(parts[1..], sep);
      SplitPrefix(parts[0], [sep] + j, sep);
      assert parts[0] + [sep] + j == parts[0] + ([sep] + j);
      assert ([sep] + j)[1..] == j;
      var r := Split([sep] + j, sep);
      assert r == [[]] + parts[1..];
      assert r[0] == [] && r[1..] == parts[1..];
      assert parts[0] + r[0] == parts[0];
      assert parts == [parts[0]] + parts[1..];
    }
  }

  lemma {:induction false} SplitNoSep(s: string, sep: char)
    requires sep !in s
    ensures Split(s, sep) == [s]
  {
    if s != [] {
      assert s[0] != sep && sep !in s[1..];
      SplitNoSep(s[1..], sep);
      assert [s[0]] + s[1..] == s;
    }
  }

  /** A separator-free prefix is glued onto the first piece of what follows. */
  lemma {:induction false} SplitPrefix(a: string, b: string, sep: char)
    requires sep !in a
    ensures var r := Split(b, sep); Split(a + b, sep) == [a + r[0]] + r[1..]
  {
    var r := Split(b, sep);
    if a == [] {
      assert a + b == b && a + r[0] == r[0];
      assert r == [r[0]] + r[1..];
    } else {
      assert a[0] != sep && sep !in a[1..];
      SplitPrefix(a[1..], b, sep);
      assert (a + b)[0] == a[0];
      assert (a + b)[1..] == a[1..] + b;
      var rest := Split(a[1..] + b, sep);
      assert rest[0] == a[1..] + r[0] && rest[1..] == r[1..];
      assert [a[0]] + (a[1..] + r[0]) == a + r[0];
    }
  }

  predicate IsDigit(c: char)
  {
    '0' <= c <= '9'
  }

  function DigitValue(c: char): nat
    requires IsDigit(c)
  {
    c as int - '0' as int
  }

  function DigitChar(d: nat): (c: char)
    requires d < 10
    ensures IsDigit(c) && DigitValue(c) == d
  {
    ('0' as int + d) as char
  }

  /** The body of an integer literal as Python's int() accepts it: ASCII
      digits, single underscores allowed between two digits. */
  predicate WellFormedDigits(s: string)
  {
    && |s| > 0 && IsDigit(s[0]) && IsDigit(s[|s| - 1])
    && (forall i :: 0 <= i < |s| ==> IsDigit(s[i]) || s[i] == '_')
    && (forall i :: 0 <= i < |s| - 1 ==> !(s[i] == '_' && s[i + 1] == '_'))
  }

  /** The decimal value of a digit string, underscores ignored. */
  function DigitsValue(s: string): nat
    requires forall i :: 0 <= i < |s| ==> IsDigit(s[i]) || s[i] == '_'
  {
    if s == [] then 0
    else
      var last := s[|s| - 1];
      if last == '_' then DigitsValue(s[..|s| - 1])
      else DigitsValue(s[..|s| - 1]) * 10 + DigitValue(last)
  }

  /** The whitespace int() skips around its digits: what str.isspace
      accepts, except the four ASCII separators U+001C..U+001F, which int()
      rejects although str.strip() removes them. */
  predicate IsIntSpace(c: char)
  {
    IsSpace(c) && !('\U{1C}' <= c <= '\U{1F}')
  }

  /** The text int() reads: s without the leading and trailing whitespace
      int() skips. */
  function IntTrim(s: string): (t: string)
    ensures |t| <= |s|
  {
    if s != [] && IsIntSpace(s[0]) then IntTrim(s[1..])
    else if s != [] && IsIntSpace(s[|s| - 1]) then IntTrim(s[..|s| - 1])
    else s
  }

  /** Text that starts and ends with a digit is read as it stands. */
  lemma IntTrimDigits(s: string)
    requires s != [] && IsDigit(s[0]) && IsDigit(s[|s| - 1])
    ensures IntTrim(s) == s
  {
    assert !IsIntSpace(s[0]) && !IsIntSpace(s[|s| - 1]);
  }

  /** Python's int(s) on a string: surrounding whitespace, then an optional
      sign, then the digits. None stands for the ValueError it raises. */
  function ParseInt(s: string): Option<int>
  {
    var t := IntTrim(s);
    var signed := |t| > 0 && (t[0] == '+' || t[0] == '-');
    var body := if signed then t[1..] else t;
    if !WellFormedDigits(body) then None
    else
      var magnitude: int := DigitsValue(body);
      if signed && t[0] == '-' then Some(-magnitude) else Some(magnitude)
  }

  /** int() skips the whitespace str.strip() removes, but not the ASCII
      separators: an entry such as "\x1c2" strips to "2" yet is no number. */
  lemma SeparatorNotSkipped()
    ensures Strip("\U{1C}2") == "2"
    ensures ParseInt("\U{1C}2") == None
    ensures ParseInt(" 2\t") == Some(2)
  {
    assert IntTrim("\U{1C}2") == "\U{1C}2";
    assert IntTrim(" 2\t") == "2" by {
      assert " 2\t"[1..] == "2\t";
      assert "2\t"[..1] == "2";
    }
    assert !WellFormedDigits("\U{1C}2");
    assert WellFormedDigits("2") && DigitsValue("2") == 2 by {
      assert "2"[..0] == "";
    }
  }

  /** The decimal numeral of a natural number (Python's str(n)). */
  function Numeral(n: nat): (s: string)
    ensures |s| > 0
    ensures forall i :: 0 <= i < |s| ==> IsDigit(s[i])
  {
    if n < 10 then [DigitChar(n)] else Numeral(n / 10) + [DigitChar(n % 10)]
  }

  /** int() reads back the number a numeral was written from. */
  lemma {:induction false} ParseNumeral(n: nat)
    ensures ParseInt(Numeral(n)) == Some(n)
  {
    var s := Numeral(n);
    NumeralValue(n);
    IntTrimDigits(s);
    assert s[0] != '+' && s[0] != '-';
    assert WellFormedDigits(s);
  }

  lemma {:induction false} NumeralValue(n: nat)
    ensures DigitsValue(Numeral(n)) == n
  {
    if n >= 10 {
      NumeralValue(n / 10);
      assert Numeral(n)[..|Numeral(n)| - 1] == Numeral(n / 10);
    }
  }

  /** The only numeral that is the literal "0" is the one for zero. */
  lemma NumeralIsZero(n: nat)
    ensures Numeral(n) == "0" <==> n == 0
  {
    if n >= 10 {
      assert |Numeral(n)| >= 2 by {
        assert |Numeral(n)| == |Numeral(n / 10)| + 1;
      }
    }
  }

  /** ASCII lower-casing of one character; other characters are kept. */
  function LowerChar(c: char): char
  {
    if 'A' <= c <= 'Z' then (c as int - 'A' as int + 'a' as int) as char else c
  }

  /** Python's `s.lower() == "all"`. No character outside ASCII lower-cases to
      'a' or 'l', so comparing ASCII-lowered text is exact here. */
  predicate IsAllKeyword(s: string)
  {
    |s| == 3 && LowerChar(s[0]) == 'a' && LowerChar(s[1]) == 'l' && LowerChar(s[2]) == 'l'
  }

  /** The keyword is recognised in every mix of cases, and in nothing else. */
  lemma AllKeywordSpellings(s: string)
    ensures IsAllKeyword(s) <==>
      |s| == 3 && (s[0] == 'a' || s[0] == 'A') && (s[1] == 'l' || s[1] == 'L')
      && (s[2] == 'l' || s[2] == 'L')
  {
  }
}
