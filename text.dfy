/** The few Python string operations the modelled code relies on, over `seq<char>`. */
module Text {
  import opened Wrappers

  predicate IsDigit(c: char) { '0' <= c <= '9' }

  predicate AllDigits(s: string) { forall i :: 0 <= i < |s| ==> IsDigit(s[i]) }

  function DigitChar(k: nat): (c: char)
    requires k < 10
    ensures IsDigit(c)
  {
    ('0' as int + k) as char
  }

  function DigitValue(c: char): (k: nat)
    requires IsDigit(c)
    ensures k < 10 && DigitChar(k) == c
  {
    c as int - '0' as int
  }

  /** `str(n)` for a non-negative integer: its decimal digits, no sign, no padding. */
  function DecimalString(n: nat): (s: string)
    ensures 1 <= |s|
    ensures n < 10 <==> |s| == 1
    ensures n < 100 ==> |s| <= 2
    ensures n < 10000 ==> |s| <= 4
  {
    if n < 10 then [DigitChar(n)] else DecimalString(n / 10) + [DigitChar(n % 10)]
  }

  /** The number a string of decimal digits denotes (leading zeros allowed). */
  function DigitsValue(s: string): nat
    requires AllDigits(s)
  {
    if s == [] then 0 else DigitsValue(s[..|s| - 1]) * 10 + DigitValue(s[|s| - 1])
  }

  /** `int(s)`, restricted to plain digit strings, read digit by digit; `None` stands for
      the ValueError `int` raises. */
  function ParseInt(s: string): (r: Option<nat>)
    ensures r.Some? ==> 0 < |s|
  {
    if s == [] || !IsDigit(s[|s| - 1]) then None
    else if |s| == 1 then Some(DigitValue(s[0]))
    else
      match ParseInt(s[..|s| - 1])
      case None => None
      case Some(v) => Some(v * 10 + DigitValue(s[|s| - 1]))
  }

  /** `int` accepts exactly the non-empty strings of digits, and reads the number they
      denote. */
  lemma {:induction false} ParseIntSpec(s: string)
    ensures ParseInt(s).Some? <==> 0 < |s| && AllDigits(s)
    ensures ParseInt(s).Some? ==> ParseInt(s).value == DigitsValue(s)
  {
    if |s| > 1 {
      var front := s[..|s| - 1];
      ParseIntSpec(front);
      if AllDigits(s) {
        assert AllDigits(front);
      }
      if AllDigits(front) && IsDigit(s[|s| - 1]) {
        assert AllDigits(s) by {
          forall i | 0 <= i < |s|
            ensures IsDigit(s[i])
          {
            if i < |s| - 1 {
              assert s[i] == front[i];
            }
          }
        }
      }
    } else if |s| == 1 {
      assert s[..0] == [];
    }
  }

  lemma DigitRoundTrip(k: nat)
    requires k < 10
    ensures DigitValue(DigitChar(k)) == k
  {
  }

  /** `int(str(n)) == n`. */
  lemma {:induction false} ParseDecimalString(n: nat)
    ensures ParseInt(DecimalString(n)) == Some(n)
  {
    DigitRoundTrip(n % 10);
    if n >= 10 {
      var s := DecimalString(n);
      ParseDecimalString(n / 10);
      assert s[..|s| - 1] == DecimalString(n / 10);
    }
  }

  /** A leading zero does not change what `int` reads. */
  lemma {:induction false} LeadingZero(s: string)
    requires ParseInt(s).Some?
    ensures ParseInt("0" + s) == ParseInt(s)
  {
    var t := "0" + s;
    if |s| == 1 {
      assert t[..|t| - 1] == "0";
    } else {
      assert t[..|t| - 1] == "0" + s[..|s| - 1];
      LeadingZero(s[..|s| - 1]);
    }
  }

  function Repeat(c: char, n: nat): (r: string)
    ensures |r| == n && forall i :: 0 <= i < n ==> r[i] == c
  {
    if n == 0 then [] else [c] + Repeat(c, n - 1)
  }

  /** `s.zfill(width)` for a string without a sign: left-padded with '0' up to `width`. */
  function ZFill(s: string, width: nat): (r: string)
    ensures |r| == if |s| >= width then |s| else width
    ensures r[|r| - |s|..] == s
  {
    if |s| >= width then s else Repeat('0', width - |s|) + s
  }

  /** A digit string padded to width 2 reads back as the same number. */
  lemma ParseZFill2(n: nat)
    requires n < 100
    ensures ParseInt(ZFill(DecimalString(n), 2)) == Some(n)
  {
    var ds := DecimalString(n);
    ParseDecimalString(n);
    if |ds| == 1 {
      assert ZFill(ds, 2) == "0" + ds;
      LeadingZero(ds);
    }
  }

  /** Python's slice `s[i:j]` for non-negative bounds: both ends are clamped to the length. */
  function Slice(s: string, i: nat, j: nat): (r: string)
    ensures j <= |s| && i <= j ==> r == s[i..j]
    ensures |s| <= i ==> r == []
    ensures i <= |s| <= j ==> r == s[i..]
  {
    var hi := if j <= |s| then j else |s|;
    var lo := if i <= hi then i else hi;
    s[lo..hi]
  }

  /** Index of the first occurrence of `x` in `s`, as `s.index(x)` finds it. */
  function FirstIndex<T(==)>(s: seq<T>, x: T): (k: nat)
    requires x in s
    ensures k < |s| && s[k] == x && x !in s[..k]
  {
    if s[0] == x then 0 else 1 + FirstIndex(s[1..], x)
  }

  /** `s.split(sep)` with an explicit one-character separator: never an empty list, and
      the empty string splits to `[""]`. */
  function Split(s: string, sep: char): (parts: seq<string>)
    ensures |parts| >= 1
    ensures forall i :: 0 <= i < |parts| ==> sep !in parts[i]
    decreases |s|
  {
    if sep !in s then [s]
    else
      var k := FirstIndex(s, sep);
      [s[..k]] + Split(s[k + 1..], sep)
  }

  /** `sep.join(parts)` for a one-character separator. */
  function Join(parts: seq<string>, sep: char): string
  {
    if |parts| == 0 then ""
    else if |parts| == 1 then parts[0]
    else parts[0] + [sep] + Join(parts[1..], sep)
  }

  lemma {:induction false} FirstIndexAfter(a: string, c: char, b: string)
    requires c !in a
    ensures FirstIndex(a + [c] + b, c) == |a|
  {
    if a != [] {
      assert (a + [c] + b)[1..] == a[1..] + [c] + b;
      FirstIndexAfter(a[1..], c, b);
    }
  }

  /** Splitting what was joined gives the parts back, when no part holds the separator. */
  lemma {:induction false} SplitJoin(parts: seq<string>, sep: char)
    requires |parts| >= 1
    requires forall i :: 0 <= i < |parts| ==> sep !in parts[i]
    ensures Split(Join(parts, sep), sep) == parts
  {
    if |parts| > 1 {
      var rest := Join(parts[1..], sep);
      var s := parts[0] + [sep] + rest;
      FirstIndexAfter(parts[0], sep, rest);
      assert s[..|parts[0]|] == parts[0];
      assert s[|parts[0]| + 1..] == rest;
      SplitJoin(parts[1..], sep);
    }
  }

  /** Joining what was split gives the string back. */
  lemma {:induction false} JoinSplit(s: string, sep: char)
    ensures Join(Split(s, sep), sep) == s
    decreases |s|
  {
    if sep in s {
      var k := FirstIndex(s, sep);
      var rest := Split(s[k + 1..], sep);
      var parts := Split(s, sep);
      assert parts == [s[..k]] + rest;
      assert parts[1..] == rest;
      JoinSplit(s[k + 1..], sep);
      assert Join(parts, sep) == s[..k] + [sep] + s[k + 1..];
      assert s == s[..k] + [sep] + s[k + 1..];
    }
  }

  /** A joined string begins with its first part and a separator, and ends with a separator
      and its last part. */
  lemma {:induction false} JoinEnds(parts: seq<string>, sep: char)
    requires |parts| >= 2
    ensures var s, first, last := Join(parts, sep), parts[0], parts[|parts| - 1];
            && |s| >= |first| + 1 + |last|
            && s[..|first|] == first && s[|first|] == sep
            && s[|s| - |last|..] == last && s[|s| - |last| - 1] == sep
  {
    var rest := Join(parts[1..], sep);
    assert Join(parts, sep) == parts[0] + [sep] + rest;
    if |parts| > 2 {
      JoinEnds(parts[1..], sep);
    }
  }

  /** Splitting gives a single part exactly when the separator does not occur. */
  lemma SplitSingle(s: string, sep: char)
    ensures |Split(s, sep)| == 1 <==> sep !in s
  {
    if sep in s {
      var k := FirstIndex(s, sep);
      assert |Split(s, sep)| == 1 + |Split(s[k + 1..], sep)|;
    }
  }

  /** `str.lower()` on one character: ASCII and Latin-1 capitals map to their small forms. */
  function LowerChar(c: char): char
  {
    if 'A' <= c <= 'Z' then (c as int + 32) as char
    else if '\U{00C0}' <= c <= '\U{00DE}' && c != '\U{00D7}' then (c as int + 32) as char
    else c
  }

  /** `str.lower()`: every character lowered on its own. */
  function Lower(s: string): string
  {
    if s == [] then [] else Lower(s[..|s| - 1]) + [LowerChar(s[|s| - 1])]
  }

  /** Lowering keeps the length and lowers character by character. */
  lemma {:induction false} LowerSpec(s: string)
    ensures |Lower(s)| == |s|
    ensures forall i :: 0 <= i < |s| ==> Lower(s)[i] == LowerChar(s[i])
  {
    if s != [] {
      LowerSpec(s[..|s| - 1]);
    }
  }

  /** `needle` occurs in `hay` starting at index `i`. */
  predicate OccursAt(hay: string, needle: string, i: int)
  {
    0 <= i && i + |needle| <= |hay| && hay[i..i + |needle|] == needle
  }

  /** `needle in hay` for strings: `needle` occurs somewhere in `hay`. */
  predicate Contains(hay: string, needle: string)
  {
    exists i :: 0 <= i <= |hay| && OccursAt(hay, needle, i)
  }

  lemma ContainsStep(hay: string, needle: string)
    requires |needle| < |hay|
    ensures Contains(hay, needle) <==> hay[..|needle|] == needle || Contains(hay[1..], needle)
  {
    if hay[..|needle|] == needle {
      assert OccursAt(hay, needle, 0);
    }
    if Contains(hay[1..], needle) {
      var i :| 0 <= i <= |hay[1..]| && OccursAt(hay[1..], needle, i);
      assert i + |needle| <= |hay[1..]|;
      assert hay[1..][i..i + |needle|] == hay[i + 1..i + 1 + |needle|];
      assert OccursAt(hay, needle, i + 1);
    }
    if Contains(hay, needle) && hay[..|needle|] != needle {
      var i :| 0 <= i <= |hay| && OccursAt(hay, needle, i);
      assert i + |needle| <= |hay|;
      assert i != 0;
      assert hay[1..][i - 1..i - 1 + |needle|] == hay[i..i + |needle|];
      assert OccursAt(hay[1..], needle, i - 1);
    }
  }

  /** `Contains` decided by scanning, as `in` does. */
  function ContainsScan(hay: string, needle: string): (b: bool)
    ensures b <==> Contains(hay, needle)
    decreases |hay|
  {
    if |hay| < |needle| then false
    else if |hay| == |needle| then
      assert hay == needle ==> OccursAt(hay, needle, 0);
      hay == needle
    else
      ContainsStep(hay, needle);
      hay[..|needle|] == needle || ContainsScan(hay[1..], needle)
  }

  /** The characters `str.isspace()` accepts. */
  predicate IsSpace(c: char)
  {
    c == ' ' || '\t' <= c <= '\r' || '\U{001C}' <= c <= '\U{001F}' || c == '\U{0085}'
    || c == '\U{00A0}' || c == '\U{1680}' || '\U{2000}' <= c <= '\U{200A}'
    || c == '\U{2028}' || c == '\U{2029}' || c == '\U{202F}' || c == '\U{205F}'
    || c == '\U{3000}'
  }

  /** `s.rstrip()`: the longest prefix that does not end in whitespace. */
  function RStrip(s: string): string
  {
    if s != [] && IsSpace(s[|s| - 1]) then RStrip(s[..|s| - 1]) else s
  }

  /** What `rstrip` keeps is a prefix that does not end in whitespace, and what it drops is
      all whitespace. */
  lemma {:induction false} RStripSpec(s: string)
    ensures var r := RStrip(s);
            && |r| <= |s| && r == s[..|r|]
            && (r == [] || !IsSpace(r[|r| - 1]))
            && forall i :: |r| <= i < |s| ==> IsSpace(s[i])
  {
    if s != [] && IsSpace(s[|s| - 1]) {
      var front := s[..|s| - 1];
      RStripSpec(front);
      assert RStrip(s) == RStrip(front);
      var r := RStrip(front);
      assert front[..|r|] == s[..|r|];
    }
  }

  /** `s.replace(a, b)` for one-character `a` and `b`. */
  function ReplaceChar(s: string, a: char, b: char): (r: string)
    ensures |r| == |s|
    ensures forall i :: 0 <= i < |s| ==> r[i] == if s[i] == a then b else s[i]
  {
    seq(|s|, i requires 0 <= i < |s| => if s[i] == a then b else s[i])
  }

  /** `s.replace(a, '')`: every `a` removed, everything else kept in order. */
  function RemoveChar(s: string, a: char): (r: string)
    ensures a !in r
    ensures |r| <= |s|
    ensures a !in s ==> r == s
  {
    if s == [] then [] else if s[0] == a then RemoveChar(s[1..], a) else [s[0]] + RemoveChar(s[1..], a)
  }

  /** Removal works piece by piece: removing from a concatenation removes from each part,
      and a single character is dropped exactly when it is `a`. So `RemoveChar(s, a)` is `s`
      with every `a` left out and every other character kept, in order. */
  lemma {:induction false} RemoveCharAppend(s: string, t: string, a: char)
    ensures RemoveChar(s + t, a) == RemoveChar(s, a) + RemoveChar(t, a)
    ensures forall c :: RemoveChar([c], a) == if c == a then [] else [c]
  {
    if s != [] {
      assert (s + t)[1..] == s[1..] + t;
      RemoveCharAppend(s[1..], t, a);
    } else {
      assert s + t == t;
    }
    forall c
      ensures RemoveChar([c], a) == if c == a then [] else [c]
    {
      assert [c][1..] == [];
    }
  }

  /** Replacement works piece by piece too: replacing in a concatenation replaces in each
      part, and a single character becomes `b` exactly when it is `a`. */
  lemma ReplaceCharAppend(s: string, t: string, a: char, b: char)
    ensures ReplaceChar(s + t, a, b) == ReplaceChar(s, a, b) + ReplaceChar(t, a, b)
    ensures forall c :: ReplaceChar([c], a, b) == if c == a then [b] else [c]
  {
    forall c
      ensures ReplaceChar([c], a, b) == if c == a then [b] else [c]
    {
      assert ReplaceChar([c], a, b)[0] == if c == a then b else c;
    }
  }

  /** Removing one character brings in no other: what was absent stays absent. */
  lemma {:induction false} RemoveCharKeeps(s: string, a: char, c: char)
    requires c !in s
    ensures c !in RemoveChar(s, a)
  {
    if s != [] {
      RemoveCharKeeps(s[1..], a, c);
    }
  }
}
