/**
 * String helpers the checker takes from Python's `str`: the whitespace class
 * of `isspace`/`split`/`lstrip` on byte strings, prefix and suffix tests,
 * `rstrip('\r\n')`, the word split `s.split()`, and the normalisation
 * `' '.join(s.split())` that `@has` applies to both file and pattern.
 */
module Text {
  import opened Failures

  /** Python 2's whitespace on byte strings: space, \t, \n, \r, \v, \f. */
  predicate IsSpace(c: char) {
    c == ' ' || c == '\t' || c == '\n' || c == '\r' || c == '\U{B}' || c == '\U{C}'
  }

  predicate IsLetter(c: char) {
    ('A' <= c <= 'Z') || ('a' <= c <= 'z')
  }

  predicate StartsWith(s: string, p: string) {
    |p| <= |s| && s[..|p|] == p
  }

  predicate EndsWith(s: string, p: string) {
    |p| <= |s| && s[|s| - |p|..] == p
  }

  /** `p` occurs in `s` starting at index `i`. */
  predicate OccursAt(s: string, p: string, i: nat) {
    i + |p| <= |s| && s[i..i + |p|] == p
  }

  /** `p in s` on strings: `p` occurs somewhere in `s`. */
  predicate IsInfix(p: string, s: string) {
    exists i: nat :: i <= |s| && OccursAt(s, p, i)
  }

  /** `s.lstrip()`: drop the leading whitespace. */
  function LStrip(s: string): (r: string)
    ensures |r| <= |s|
    ensures r == [] || !IsSpace(r[0])
  {
    if s != [] && IsSpace(s[0]) then LStrip(s[1..]) else s
  }

  /** What `lstrip` keeps is a suffix, and everything before it is whitespace. */
  lemma {:induction false} LStripSuffix(s: string)
    ensures LStrip(s) == s[|s| - |LStrip(s)|..]
    ensures forall i :: 0 <= i < |s| - |LStrip(s)| ==> IsSpace(s[i])
    decreases |s|
  {
    if s != [] && IsSpace(s[0]) {
      LStripSuffix(s[1..]);
      assert s[1..][|s| - 1 - |LStrip(s)|..] == s[|s| - |LStrip(s)|..];
      forall i | 0 < i < |s| - |LStrip(s)|
        ensures IsSpace(s[i])
      {
        assert s[i] == s[1..][i - 1];
      }
    }
  }

  /** `s.rstrip('\r\n')`: drop every trailing carriage return and newline. */
  function RStripNewlines(s: string): (r: string)
    ensures |r| <= |s| && r == s[..|r|]
    ensures r == [] || (r[|r| - 1] != '\r' && r[|r| - 1] != '\n')
    ensures forall i :: |r| <= i < |s| ==> s[i] == '\r' || s[i] == '\n'
  {
    if s != [] && (s[|s| - 1] == '\r' || s[|s| - 1] == '\n') then RStripNewlines(s[..|s| - 1]) else s
  }

  /** A word of `split()`: a non-empty run without whitespace. */
  predicate IsWord(w: string) {
    |w| > 0 && forall i :: 0 <= i < |w| ==> !IsSpace(w[i])
  }

  /** Length of the longest whitespace-free prefix of `s`. */
  function WordLen(s: string): (n: nat)
    ensures n <= |s|
    ensures forall i :: 0 <= i < n ==> !IsSpace(s[i])
    ensures n == |s| || IsSpace(s[n])
  {
    if s == [] || IsSpace(s[0]) then 0 else 1 + WordLen(s[1..])
  }

  /** `s.split()` with no separator: the maximal whitespace-free runs, in order. */
  function Words(s: string): (ws: seq<string>)
    ensures forall i :: 0 <= i < |ws| ==> IsWord(ws[i])
    decreases |s|
  {
    var t := LStrip(s);
    if t == [] then []
    else
      var n := WordLen(t);
      var rest := Words(t[n..]);
      assert IsWord(t[..n]);
      WordsCons(t[..n], rest);
      [t[..n]] + rest
  }

  /** A word in front of a list of words gives a list of words. */
  lemma WordsCons(w: string, rest: seq<string>)
    requires IsWord(w) && forall i :: 0 <= i < |rest| ==> IsWord(rest[i])
    ensures forall i :: 0 <= i < |[w] + rest| ==> IsWord(([w] + rest)[i])
  {
    forall i | 0 <= i < |[w] + rest|
      ensures IsWord(([w] + rest)[i])
    {
      if i > 0 {
        assert ([w] + rest)[i] == rest[i - 1];
      }
    }
  }

  /** `' '.join(ws)`. */
  function JoinSpaced(ws: seq<string>): string {
    if |ws| == 0 then ""
    else if |ws| == 1 then ws[0]
    else ws[0] + " " + JoinSpaced(ws[1..])
  }

  /**
   * `' '.join(s.split())`: every whitespace run becomes one space, ends
   * trimmed. The result has only single inner spaces and the same words.
   */
  function Collapse(s: string): (r: string)
    ensures Canonical(r)
    ensures Words(r) == Words(s)
  {
    JoinSpacedCanonical(Words(s));
    WordsOfJoin(Words(s));
    JoinSpaced(Words(s))
  }

  /** A string `Collapse` leaves alone: its only whitespace is single inner spaces. */
  predicate Canonical(t: string) {
    forall i :: 0 <= i < |t| && IsSpace(t[i]) ==> t[i] == ' ' && 0 < i < |t| - 1 && !IsSpace(t[i + 1])
  }

  lemma {:induction false} WordLenOfWord(w: string, rest: string)
    requires IsWord(w)
    requires rest == [] || IsSpace(rest[0])
    ensures WordLen(w + rest) == |w|
    decreases |w|
  {
    if |w| > 1 {
      assert (w + rest)[1..] == w[1..] + rest;
      WordLenOfWord(w[1..], rest);
    } else {
      assert (w + rest)[1..] == rest;
    }
  }

  lemma {:induction false} JoinSpacedStartsWithWord(ws: seq<string>)
    requires |ws| > 0
    requires forall i :: 0 <= i < |ws| ==> IsWord(ws[i])
    ensures |JoinSpaced(ws)| > 0 && !IsSpace(JoinSpaced(ws)[0])
  {
  }

  /** A leading whitespace character does not change the split. */
  lemma WordsSkipSpace(c: char, s: string)
    requires IsSpace(c)
    ensures Words([c] + s) == Words(s)
  {
    assert ([c] + s)[1..] == s;
    assert LStrip([c] + s) == LStrip(s);
  }

  /** A word followed by whitespace (or nothing) is the first word of the split. */
  lemma WordsAfterWord(w: string, rest: string)
    requires IsWord(w)
    requires rest == [] || IsSpace(rest[0])
    ensures Words(w + rest) == [w] + Words(rest)
  {
    var s := w + rest;
    assert LStrip(s) == s;
    WordLenOfWord(w, rest);
    assert s[..|w|] == w;
    assert s[|w|..] == rest;
  }

  /** A word, one space, then more text: the word is split off and the space dropped. */
  lemma WordsOfSpacedPair(w: string, j: string)
    requires IsWord(w)
    ensures Words(w + " " + j) == [w] + Words(j)
  {
    assert w + " " + j == w + (" " + j);
    WordsAfterWord(w, " " + j);
    assert [' '] + j == " " + j;
    WordsSkipSpace(' ', j);
  }

  /** Splitting words joined by single spaces gives the words back. */
  lemma {:induction false} WordsOfJoin(ws: seq<string>)
    requires forall i :: 0 <= i < |ws| ==> IsWord(ws[i])
    ensures Words(JoinSpaced(ws)) == ws
    decreases |ws|
  {
    if |ws| == 1 {
      WordsAfterWord(ws[0], []);
      assert ws[0] + [] == ws[0];
    } else if |ws| > 1 {
      WordsOfJoin(ws[1..]);
      WordsOfJoinStep(ws);
    }
  }

  /** One more word in front of a joined list of words is split off again. */
  lemma WordsOfJoinStep(ws: seq<string>)
    requires |ws| > 1 && IsWord(ws[0])
    requires Words(JoinSpaced(ws[1..])) == ws[1..]
    ensures Words(JoinSpaced(ws)) == ws
  {
    assert JoinSpaced(ws) == ws[0] + " " + JoinSpaced(ws[1..]);
    WordsOfSpacedPair(ws[0], JoinSpaced(ws[1..]));
    HeadTail(ws);
  }

  /** A suffix of a sequence is the concatenation of three consecutive slices. */
  lemma SliceSplit<T>(s: seq<T>, a: nat, b: nat, c: nat)
    requires a <= b <= c <= |s|
    ensures s[a..] == s[a..b] + (s[b..c] + s[c..])
  {
  }

  /** A non-empty sequence is its head followed by its tail. */
  lemma HeadTail<T>(s: seq<T>)
    requires s != []
    ensures [s[0]] + s[1..] == s
  {
  }

  lemma {:induction false} JoinSpacedCanonical(ws: seq<string>)
    requires forall i :: 0 <= i < |ws| ==> IsWord(ws[i])
    ensures Canonical(JoinSpaced(ws))
    decreases |ws|
  {
    if |ws| > 1 {
      var w := ws[0];
      var j := JoinSpaced(ws[1..]);
      JoinSpacedCanonical(ws[1..]);
      JoinSpacedStartsWithWord(ws[1..]);
      var t := w + " " + j;
      forall i | 0 <= i < |t| && IsSpace(t[i])
        ensures t[i] == ' ' && 0 < i < |t| - 1 && !IsSpace(t[i + 1])
      {
        if i < |w| {
          assert false;
        } else if i == |w| {
          assert t[i + 1] == j[0];
        } else {
          assert t[i] == j[i - |w| - 1];
          assert i + 1 < |t| ==> t[i + 1] == j[i - |w|];
        }
      }
    }
  }

  /** Collapsing is idempotent. */
  lemma CollapseIdempotent(s: string)
    ensures Collapse(Collapse(s)) == Collapse(s)
  {
    WordsOfJoin(Words(s));
  }

  /** A string of whitespace only collapses to the empty string. */
  lemma {:induction false} BlankCollapsesToEmpty(s: string)
    requires forall i :: 0 <= i < |s| ==> IsSpace(s[i])
    ensures Words(s) == [] && Collapse(s) == ""
  {
    LStripSuffix(s);
    assert LStrip(s) == [];
  }

  lemma {:induction false} LStripBlank(b: string, s: string)
    requires forall i :: 0 <= i < |b| ==> IsSpace(b[i])
    ensures LStrip(b + s) == LStrip(s)
    decreases |b|
  {
    if b != [] {
      assert (b + s)[0] == b[0];
      assert (b + s)[1..] == b[1..] + s;
      LStripBlank(b[1..], s);
    } else {
      assert b + s == s;
    }
  }

  /** Leading whitespace does not change the split. */
  lemma WordsSkipBlank(b: string, s: string)
    requires forall i :: 0 <= i < |b| ==> IsSpace(b[i])
    ensures Words(b + s) == Words(s)
  {
    LStripBlank(b, s);
  }

  lemma WordsOfWord(w: string)
    requires IsWord(w)
    ensures Words(w) == [w]
  {
    assert w == w + [];
    WordsAfterWord(w, []);
    assert Words([]) == [];
  }

  /** Cutting a string just before a whitespace character cuts its split there too. */
  lemma {:induction false} WordsAtSpace(x: string, y: string)
    requires y != [] && IsSpace(y[0])
    ensures Words(x + y) == Words(x) + Words(y)
    decreases |x|
  {
    var t := LStrip(x);
    LeadingBlank(x, y);
    if t != [] {
      var n := WordLen(t);
      var w, k := t[..n], t[n..];
      assert t == w + k;
      WordsAtSpace(k, y);
      WordsAtSpaceStep(w, k, y);
    }
  }

  /** Leading whitespace stripped off both sides of the cut. */
  lemma LeadingBlank(x: string, y: string)
    ensures Words(x + y) == Words(LStrip(x) + y) && Words(x) == Words(LStrip(x))
    ensures LStrip(x) == [] ==> Words(x + y) == Words(x) + Words(y)
  {
    var t := LStrip(x);
    LStripSuffix(x);
    SkipPrefixBlank(x, x[..|x| - |t|], t, y);
  }

  lemma SkipPrefixBlank(x: string, p: string, t: string, y: string)
    requires x == p + t && forall i :: 0 <= i < |p| ==> IsSpace(p[i])
    ensures Words(x + y) == Words(t + y) && Words(x) == Words(t)
    ensures t == [] ==> Words(x + y) == Words(x) + Words(y)
  {
    assert x + y == p + (t + y);
    WordsSkipBlank(p, t + y);
    WordsSkipBlank(p, t);
    if t == [] {
      assert t + y == y;
    }
  }

  /** A first word is split off on both sides of the cut. */
  lemma WordsAtSpaceStep(w: string, r: string, y: string)
    requires IsWord(w) && (r == [] || IsSpace(r[0])) && y != [] && IsSpace(y[0])
    requires Words(r + y) == Words(r) + Words(y)
    ensures Words(w + r + y) == Words(w + r) + Words(y)
  {
    SpaceLed(r, y);
    WordsAfterWord(w, r + y);
    WordsAfterWord(w, r);
    Assoc(w, r, y);
    Assoc([w], Words(r), Words(y));
  }

  /** Whitespace after a prefix that is empty or starts with whitespace. */
  lemma SpaceLed(r: string, y: string)
    requires (r == [] || IsSpace(r[0])) && y != [] && IsSpace(y[0])
    ensures IsSpace((r + y)[0])
  {
    if r == [] {
      assert r + y == y;
    }
  }

  lemma Assoc<T>(a: seq<T>, b: seq<T>, c: seq<T>)
    ensures a + b + c == a + (b + c)
  {
  }

  /** Any whitespace run between two texts separates their words and adds none. */
  lemma WordsAroundBlank(x: string, blank: string, y: string)
    requires |blank| > 0 && forall i :: 0 <= i < |blank| ==> IsSpace(blank[i])
    ensures Words(x + blank + y) == Words(x) + Words(y)
  {
    assert x + blank + y == x + (blank + y);
    WordsAtSpace(x, blank + y);
    WordsSkipBlank(blank, y);
  }

  /** Joining two non-empty lists of words puts one space between their joins. */
  lemma {:induction false} JoinSpacedAppend(a: seq<string>, b: seq<string>)
    requires a != [] && b != []
    ensures JoinSpaced(a + b) == JoinSpaced(a) + " " + JoinSpaced(b)
    decreases |a|
  {
    if |a| == 1 {
      assert (a + b)[1..] == b;
    } else {
      assert (a + b)[1..] == a[1..] + b;
      JoinSpacedAppend(a[1..], b);
    }
  }

  /**
   * Any whitespace run between two texts collapses to one space, or to
   * nothing when either side has no words; "a\n\n  b" collapsing to "a b"
   * is an instance.
   */
  lemma CollapseAroundBlank(x: string, blank: string, y: string)
    requires |blank| > 0 && forall i :: 0 <= i < |blank| ==> IsSpace(blank[i])
    ensures Collapse(x + blank + y) ==
      if Words(x) == [] then Collapse(y)
      else if Words(y) == [] then Collapse(x)
      else Collapse(x) + " " + Collapse(y)
  {
    WordsAroundBlank(x, blank, y);
    if Words(x) == [] {
      assert Words(x) + Words(y) == Words(y);
    } else if Words(y) == [] {
      assert Words(x) + Words(y) == Words(x);
    } else {
      JoinSpacedAppend(Words(x), Words(y));
    }
  }

  /** Index of the first occurrence of `sep` in `s` at or after `from`. */
  function FindFrom(s: string, sep: string, from: nat): (r: Option<nat>)
    requires |sep| > 0
    ensures r.Some? ==> from <= r.value && OccursAt(s, sep, r.value)
    ensures r.Some? ==> forall i: nat :: from <= i < r.value ==> !OccursAt(s, sep, i)
    ensures r.None? ==> forall i: nat :: from <= i ==> !OccursAt(s, sep, i)
    decreases |s| - from
  {
    if from + |sep| > |s| then None
    else if OccursAt(s, sep, from) then Some(from)
    else FindFrom(s, sep, from + 1)
  }

  // ---------------------------------------------------------------------
  // int()

  /** `s.rstrip()`: drop the trailing whitespace. */
  function RStrip(s: string): (r: string)
    ensures |r| <= |s| && r == s[..|r|]
    ensures r == [] || !IsSpace(r[|r| - 1])
    ensures forall i :: |r| <= i < |s| ==> IsSpace(s[i])
  {
    if s != [] && IsSpace(s[|s| - 1]) then RStrip(s[..|s| - 1]) else s
  }

  /** `s.strip()`. */
  function Strip(s: string): string {
    RStrip(LStrip(s))
  }

  /** The value of a digit in base 10 or 16, if `c` is one. */
  function DigitValue(c: char, base: nat): (d: Option<nat>)
    requires base == 10 || base == 16
    ensures d.Some? ==> d.value < base
  {
    if '0' <= c <= '9' then Some(c as nat - '0' as nat)
    else if base == 16 && 'a' <= c <= 'f' then Some(c as nat - 'a' as nat + 10)
    else if base == 16 && 'A' <= c <= 'F' then Some(c as nat - 'A' as nat + 10)
    else None
  }

  predicate AllDigits(s: string, base: nat)
    requires base == 10 || base == 16
  {
    forall i :: 0 <= i < |s| ==> DigitValue(s[i], base).Some?
  }

  /** The value of a digit string, most significant digit first. */
  function DigitsValue(s: string, base: nat): nat
    requires base == 10 || base == 16
    requires AllDigits(s, base)
  {
    if s == [] then 0 else DigitsValue(s[..|s| - 1], base) * base + DigitValue(s[|s| - 1], base).value
  }

  /**
   * `int(s, base)` for base 10 or 16: surrounding whitespace, an optional
   * sign, then at least one digit; anything else raises (None).
   */
  function ParseInt(s: string, base: nat): (r: Option<int>)
    requires base == 10 || base == 16
    ensures r.Some? ==> Strip(s) != [] && DigitValue(Strip(s)[|Strip(s)| - 1], base).Some?
    ensures r.Some? && r.value < 0 ==> Strip(s)[0] == '-'
  {
    var t := Strip(s);
    var negative := t != [] && t[0] == '-';
    var digits := if t != [] && (t[0] == '-' || t[0] == '+') then t[1..] else t;
    if digits != [] && AllDigits(digits, base) then
      Some(if negative then -(DigitsValue(digits, base) as int) else DigitsValue(digits, base) as int)
    else None
  }

  /** The decimal digits of `n`, without leading zeros (`"0"` for zero). */
  function Decimal(n: nat): (s: string)
    ensures |s| > 0 && AllDigits(s, 10)
    decreases n
  {
    if n < 10 then [('0' as nat + n) as char] else Decimal(n / 10) + [('0' as nat + n % 10) as char]
  }

  /** `str(n)` for an integer. */
  function Numeral(n: int): string {
    if n < 0 then "-" + Decimal(-n) else Decimal(n)
  }

  /** The lower-case hexadecimal digit for `d`. */
  function HexDigit(d: nat): (c: char)
    requires d < 16
    ensures DigitValue(c, 16) == Some(d)
  {
    if d < 10 then ('0' as nat + d) as char else ('a' as nat + d - 10) as char
  }

  /** The hexadecimal digits of `n`, without leading zeros (`"0"` for zero). */
  function Hex(n: nat): (s: string)
    ensures |s| > 0 && AllDigits(s, 16)
    decreases n
  {
    if n < 16 then [HexDigit(n)] else Hex(n / 16) + [HexDigit(n % 16)]
  }

  lemma {:induction false} HexValue(n: nat)
    ensures DigitsValue(Hex(n), 16) == n
    decreases n
  {
    if n >= 16 {
      var s := Hex(n);
      assert s[..|s| - 1] == Hex(n / 16);
      HexValue(n / 16);
    }
  }

  /** `int(h, 16) == n` for the hexadecimal digits `h` of `n`. */
  lemma ParseIntHex(n: nat)
    ensures ParseInt(Hex(n), 16) == Some(n)
  {
    HexValue(n);
    ParseDigits(Hex(n), 16);
  }

  /** A bare run of digits parses to its value. */
  lemma ParseDigits(s: string, base: nat)
    requires base == 10 || base == 16
    requires s != [] && AllDigits(s, base)
    ensures ParseInt(s, base) == Some(DigitsValue(s, base) as int)
  {
    assert DigitValue(s[0], base).Some? && DigitValue(s[|s| - 1], base).Some?;
    assert s[0] != '-' && s[0] != '+' && !IsSpace(s[0]) && !IsSpace(s[|s| - 1]);
    StripUnspaced(s);
  }

  lemma {:induction false} DecimalValue(n: nat)
    ensures DigitsValue(Decimal(n), 10) == n
    decreases n
  {
    if n >= 10 {
      var s := Decimal(n);
      assert s[..|s| - 1] == Decimal(n / 10);
      DecimalValue(n / 10);
    }
  }

  lemma StripUnspaced(s: string)
    requires s != [] && !IsSpace(s[0]) && !IsSpace(s[|s| - 1])
    ensures Strip(s) == s
  {
  }

  /** `int(str(n)) == n`: parsing a rendered integer gives it back. */
  lemma ParseIntNumeral(n: int)
    ensures ParseInt(Numeral(n), 10) == Some(n)
  {
    var s := Numeral(n);
    var d := Decimal(if n < 0 then -n else n);
    assert d[0] != '-' && d[0] != '+' && !IsSpace(d[0]);
    assert !IsSpace(d[|d| - 1]);
    assert s[|s| - 1] == d[|d| - 1];
    StripUnspaced(s);
    DecimalValue(if n < 0 then -n else n);
    if n < 0 {
      assert s[1..] == d;
    }
  }
}
