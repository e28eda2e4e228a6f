/** The string operations the source takes from the C++ and Qt libraries
    (`std::to_string`, `std::hex`, `find`, `QString::split`, `trimmed`,
    `toLower`, `toInt`, `std::stoi`, `istream >>`), over `seq<char>` and
    restricted to ASCII: no locale, no Unicode case folding. */
module Text {
  import opened Wrappers
  import opened Bytes

  predicate IsDigit(c: char) { '0' <= c <= '9' }

  /** `std::isspace` / `QChar::isSpace` on ASCII: space, \t, \n, \v, \f and \r. */
  predicate IsSpace(c: char) { c == ' ' || 9 <= c as int <= 13 }

  predicate AllDigits(s: string) { forall i :: 0 <= i < |s| ==> IsDigit(s[i]) }

  // ---------------------------------------------------------------- numbers

  /** The lower-case digit for 0..15 (`std::hex` prints lower case). */
  function DigitChar(d: nat): (c: char)
    requires d < 16
  {
    if d < 10 then (48 + d) as char else (87 + d) as char
  }

  function DigitValue(c: char): (d: nat)
    requires IsDigit(c)
    ensures d < 10
  {
    c as int - 48
  }

  /** `std::to_string` / `QString::number` of a non-negative integer. */
  function Decimal(n: nat): (s: string)
    ensures 1 <= |s| && AllDigits(s)
    ensures n < 10 <==> |s| == 1
    decreases n
  {
    if n < 10 then [DigitChar(n)] else Decimal(n / 10) + [DigitChar(n % 10)]
  }

  /** The digits of a three- and a four-digit number. */
  lemma DecimalOfThreeDigits(n: nat)
    requires 100 <= n < 1000
    ensures Decimal(n) == [DigitChar(n / 100), DigitChar(n / 10 % 10), DigitChar(n % 10)]
  {
    assert Decimal(n / 10) == Decimal(n / 100) + [DigitChar(n / 10 % 10)];
  }

  lemma DecimalOfFourDigits(n: nat)
    requires 1000 <= n < 10000
    ensures Decimal(n) == [DigitChar(n / 1000), DigitChar(n / 100 % 10), DigitChar(n / 10 % 10), DigitChar(n % 10)]
  {
    DecimalOfThreeDigits(n / 10);
    assert n / 10 / 100 == n / 1000 && n / 10 / 10 % 10 == n / 100 % 10;
  }

  /** The value of a string of decimal digits. */
  function DecimalValue(s: string): nat
    requires AllDigits(s)
  {
    if s == [] then 0 else DecimalValue(s[..|s| - 1]) * 10 + DigitValue(s[|s| - 1])
  }

  /** Printing a number in decimal loses nothing: reading the digits back gives it. */
  lemma {:induction false} DecimalRoundTrip(n: nat)
    ensures DecimalValue(Decimal(n)) == n
    decreases n
  {
    if n >= 10 {
      var s := Decimal(n);
      assert s[..|s| - 1] == Decimal(n / 10);
      DecimalRoundTrip(n / 10);
    }
  }

  /** Distinct numbers print differently. */
  lemma DecimalInjective(m: nat, n: nat)
    requires Decimal(m) == Decimal(n)
    ensures m == n
  {
    DecimalRoundTrip(m);
    DecimalRoundTrip(n);
  }

  /** `std::to_string` of a signed integer. */
  function SignedDecimal(i: int): string
  {
    if i < 0 then "-" + Decimal(-i) else Decimal(i)
  }

  /** A number in lower-case hexadecimal without padding (`QString::arg(n, 0, 16)`). */
  function Hex(n: nat): (s: string)
    ensures 1 <= |s|
    ensures n < 16 <==> |s| == 1
    decreases n
  {
    if n < 16 then [DigitChar(n)] else Hex(n / 16) + [DigitChar(n % 16)]
  }

  /** The value of a hexadecimal digit character, lower-case letters above nine. */
  function HexDigitValue(c: char): int
  {
    if c <= '9' then c as int - 48 else c as int - 87
  }

  /** The value of a string of hexadecimal digits. */
  function HexValue(s: string): int
  {
    if s == [] then 0 else HexValue(s[..|s| - 1]) * 16 + HexDigitValue(s[|s| - 1])
  }

  /** Printing in hexadecimal loses nothing: reading the digits back gives the number. */
  lemma {:induction false} HexRoundTrip(n: nat)
    ensures HexValue(Hex(n)) == n
    decreases n
  {
    if n >= 16 {
      var s := Hex(n);
      assert s[..|s| - 1] == Hex(n / 16);
      HexRoundTrip(n / 16);
    }
  }

  lemma HexInjective(m: nat, n: nat)
    requires Hex(m) == Hex(n)
    ensures m == n
  {
    HexRoundTrip(m);
    HexRoundTrip(n);
  }

  /** No hexadecimal form holds a colon. */
  lemma {:induction false} HexNoColon(n: nat, i: nat)
    requires i < |Hex(n)|
    ensures Hex(n)[i] != ':'
    decreases n
  {
    if n >= 16 && i < |Hex(n)| - 1 {
      HexNoColon(n / 16, i);
    }
  }

  function Pow16(k: nat): (p: nat)
    ensures p >= 1
  {
    if k == 0 then 1 else 16 * Pow16(k - 1)
  }

  lemma {:induction false} HexLength(n: nat, k: nat)
    requires 1 <= k && n < Pow16(k)
    ensures |Hex(n)| <= k
    decreases k
  {
    if n >= 16 {
      assert n / 16 < Pow16(k - 1);
      HexLength(n / 16, k - 1);
    }
  }

  function Repeat(c: char, k: nat): (s: string)
    ensures |s| == k && forall i :: 0 <= i < k ==> s[i] == c
  {
    if k == 0 then [] else [c] + Repeat(c, k - 1)
  }

  /** `std::hex << std::setw(w) << std::setfill('0') << n`. */
  function HexPadded(n: nat, w: nat): (s: string)
    ensures |s| == if |Hex(n)| < w then w else |Hex(n)|
  {
    var h := Hex(n);
    if |h| < w then Repeat('0', w - |h|) + h else h
  }

  /** `"0x" + setw(4)` hex of a 16-bit value: always six characters. */
  function Hex4(n: nat): (s: string)
    requires n < 0x1_0000
    ensures |s| == 6
  {
    HexLength(n, 4);
    "0x" + HexPadded(n, 4)
  }

  /** Two lower-case hex digits: `std::hex << setw(2) << setfill('0')` of a byte. */
  function Hex2(b: byte): (s: string)
    ensures |s| == 2
  {
    [DigitChar(b / 16), DigitChar(b % 16)]
  }

  lemma DigitCharInjective(d: nat, e: nat)
    requires d < 16 && e < 16 && DigitChar(d) == DigitChar(e)
    ensures d == e
  {
  }

  /** The padded form is two digits that determine the byte. */
  lemma Hex2Facts(b: byte, c: byte)
    ensures HexPadded(b, 2) == Hex2(b)
    ensures Hex2(b) == Hex2(c) ==> b == c
  {
    if b >= 16 {
      assert Hex(b) == Hex(b / 16) + [DigitChar(b % 16)];
    }
    if Hex2(b) == Hex2(c) {
      DigitCharInjective(b / 16, c / 16);
      DigitCharInjective(b % 16, c % 16);
    }
  }

  /** A byte as a character, the way `std::string(data, len)` reads a payload. */
  function Chars(bs: seq<byte>): (s: string)
    ensures |s| == |bs| && forall i :: 0 <= i < |bs| ==> s[i] as int == bs[i]
  {
    seq(|bs|, i requires 0 <= i < |bs| => bs[i] as char)
  }

  // ---------------------------------------------------------------- case

  function LowerChar(c: char): char
  {
    if 'A' <= c <= 'Z' then (c as int + 32) as char else c
  }

  function UpperChar(c: char): char
  {
    if 'a' <= c <= 'z' then (c as int - 32) as char else c
  }

  function ToLower(s: string): (r: string)
    ensures |r| == |s|
  {
    seq(|s|, i requires 0 <= i < |s| => LowerChar(s[i]))
  }

  function ToUpper(s: string): (r: string)
    ensures |r| == |s|
  {
    seq(|s|, i requires 0 <= i < |s| => UpperChar(s[i]))
  }

  // ---------------------------------------------------------------- trimming

  function TrimStart(s: string): (r: string)
    ensures |r| <= |s|
  {
    if s != [] && IsSpace(s[0]) then TrimStart(s[1..]) else s
  }

  function TrimEnd(s: string): (r: string)
    ensures |r| <= |s|
  {
    if s != [] && IsSpace(s[|s| - 1]) then TrimEnd(s[..|s| - 1]) else s
  }

  /** `QString::trimmed`: whitespace removed from both ends. */
  function Trim(s: string): string
  {
    TrimEnd(TrimStart(s))
  }

  lemma {:induction false} TrimStartNoSpace(s: string)
    ensures TrimStart(s) != [] ==> !IsSpace(TrimStart(s)[0])
  {
    if s != [] && IsSpace(s[0]) { TrimStartNoSpace(s[1..]); }
  }

  lemma {:induction false} TrimEndNoSpace(s: string)
    ensures TrimEnd(s) != [] ==> !IsSpace(TrimEnd(s)[|TrimEnd(s)| - 1])
  {
    if s != [] && IsSpace(s[|s| - 1]) { TrimEndNoSpace(s[..|s| - 1]); }
  }

  lemma {:induction false} TrimEndKeepsFront(s: string)
    requires s != [] && !IsSpace(s[0])
    ensures TrimEnd(s) != [] && TrimEnd(s)[0] == s[0]
  {
    if IsSpace(s[|s| - 1]) { TrimEndKeepsFront(s[..|s| - 1]); }
  }

  /** A trimmed string has no whitespace at either end. */
  lemma TrimmedEnds(s: string)
    ensures Trim(s) != [] ==> !IsSpace(Trim(s)[0]) && !IsSpace(Trim(s)[|Trim(s)| - 1])
  {
    TrimStartNoSpace(s);
    TrimEndNoSpace(TrimStart(s));
    if TrimStart(s) != [] { TrimEndKeepsFront(TrimStart(s)); }
  }

  /** A string of whitespace only trims to nothing. */
  lemma {:induction false} TrimAllSpace(s: string)
    requires forall i :: 0 <= i < |s| ==> IsSpace(s[i])
    ensures Trim(s) == []
  {
    if s != [] { TrimAllSpace(s[1..]); }
  }

  // ---------------------------------------------------------------- searching

  predicate OccursAt(s: string, pat: string, j: int)
  {
    0 <= j && j + |pat| <= |s| && s[j..j + |pat|] == pat
  }

  predicate Contains(s: string, pat: string)
  {
    exists j :: 0 <= j <= |s| && OccursAt(s, pat, j)
  }

  predicate StartsWith(s: string, prefix: string)
  {
    |prefix| <= |s| && s[..|prefix|] == prefix
  }

  /** `s.find(pat, from)`: the first occurrence at or after `from`, or None (npos). */
  function FindFrom(s: string, pat: string, from: nat): (r: Option<nat>)
    requires |pat| > 0
    ensures r.Some? ==> from <= r.value && OccursAt(s, pat, r.value)
    ensures r.Some? ==> forall j :: from <= j < r.value ==> !OccursAt(s, pat, j)
    ensures r.None? ==> forall j :: from <= j ==> !OccursAt(s, pat, j)
    decreases |s| - from
  {
    if from + |pat| > |s| then None
    else if s[from..from + |pat|] == pat then Some(from)
    else FindFrom(s, pat, from + 1)
  }

  function Find(s: string, pat: string): (r: Option<nat>)
    requires |pat| > 0
    ensures r.None? <==> !Contains(s, pat)
    ensures r.Some? ==> OccursAt(s, pat, r.value) && forall j :: 0 <= j < r.value ==> !OccursAt(s, pat, j)
  {
    FindFrom(s, pat, 0)
  }

  // ---------------------------------------------------------------- splitting

  /** `QString::split(sep)` keeping empty parts: cut at every occurrence of
      `sep`, scanning left to right without overlaps. */
  function Split(s: string, sep: string): (parts: seq<string>)
    requires |sep| > 0
    ensures |parts| >= 1
    decreases |s|
  {
    match Find(s, sep)
    case None => [s]
    case Some(i) => [s[..i]] + Split(s[i + |sep|..], sep)
  }

  function Join(parts: seq<string>, sep: string): string
  {
    if |parts| == 0 then ""
    else if |parts| == 1 then parts[0]
    else parts[0] + sep + Join(parts[1..], sep)
  }

  /** One cut of `Split`: the text before the first separator, the separator, the rest. */
  lemma SplitFirst(s: string, sep: string, i: nat)
    requires |sep| > 0 && Find(s, sep) == Some(i)
    ensures Split(s, sep) == [s[..i]] + Split(s[i + |sep|..], sep)
    ensures s == s[..i] + sep + s[i + |sep|..]
  {
    assert s[i..i + |sep|] == sep;
    assert s == s[..i] + s[i..i + |sep|] + s[i + |sep|..];
  }

  /** Splitting loses nothing: joining the parts with the separator restores the text. */
  lemma {:induction false} JoinSplit(s: string, sep: string)
    requires |sep| > 0
    ensures Join(Split(s, sep), sep) == s
    decreases |s|
  {
    var f := Find(s, sep);
    if f.Some? {
      var i := f.value;
      var rest := s[i + |sep|..];
      SplitFirst(s, sep, i);
      JoinSplit(rest, sep);
      JoinCons(s[..i], Split(rest, sep), sep);
    }
  }

  lemma JoinCons(first: string, rest: seq<string>, sep: string)
    requires |rest| >= 1
    ensures Join([first] + rest, sep) == first + sep + Join(rest, sep)
  {
    assert ([first] + rest)[1..] == rest;
  }

  /** A one-character pattern occurs exactly where that character is. */
  lemma OccursChar(s: string, c: char, j: int)
    ensures OccursAt(s, [c], j) <==> 0 <= j < |s| && s[j] == c
  {
    if 0 <= j < |s| {
      assert s[j..j + 1] == [s[j]];
    }
  }

  /** Joining parts that do not hold the character c with c is undone by
      splitting at c. */
  lemma {:induction false} SplitJoinChar(parts: seq<string>, c: char)
    requires |parts| >= 1
    requires forall k, i :: 0 <= k < |parts| && 0 <= i < |parts[k]| ==> parts[k][i] != c
    ensures Split(Join(parts, [c]), [c]) == parts
    decreases |parts|
  {
    var p0 := parts[0];
    if |parts| == 1 {
      forall j | 0 <= j <= |p0|
        ensures !OccursAt(p0, [c], j)
      {
        OccursChar(p0, c, j);
      }
      SplitNoSep(p0, [c]);
    } else {
      var rest := Join(parts[1..], [c]);
      var s := Join(parts, [c]);
      assert s == p0 + [c] + rest;
      assert OccursAt(s, [c], |p0|) by {
        assert s[|p0|..|p0| + 1] == [c];
      }
      forall j | 0 <= j < |p0|
        ensures !OccursAt(s, [c], j)
      {
        OccursChar(s, c, j);
        assert s[j] == p0[j];
      }
      var f := Find(s, [c]);
      assert f.value == |p0|;
      SplitFirst(s, [c], |p0|);
      assert s[..|p0|] == p0;
      assert s[|p0| + 1..] == rest;
      SplitJoinChar(parts[1..], c);
    }
  }

  /** The text before the first separator holds none. */
  lemma BeforeFirstFree(s: string, sep: string, i: nat)
    requires |sep| > 0 && Find(s, sep) == Some(i)
    ensures !Contains(s[..i], sep)
  {
    if Contains(s[..i], sep) {
      var j :| 0 <= j <= i && OccursAt(s[..i], sep, j);
      assert s[..i][j..j + |sep|] == s[j..j + |sep|];
      assert OccursAt(s, sep, j);
    }
  }

  /** No part contains the separator. */
  lemma {:induction false} SplitPartsFree(s: string, sep: string, k: nat)
    requires |sep| > 0 && k < |Split(s, sep)|
    ensures !Contains(Split(s, sep)[k], sep)
    decreases |s|
  {
    var f := Find(s, sep);
    if f.Some? {
      var i := f.value;
      SplitFirst(s, sep, i);
      if k == 0 {
        BeforeFirstFree(s, sep, i);
      } else {
        SplitPartsFree(s[i + |sep|..], sep, k - 1);
      }
    }
  }

  /** Text without the separator is a single part. */
  lemma SplitNoSep(s: string, sep: string)
    requires |sep| > 0 && !Contains(s, sep)
    ensures Split(s, sep) == [s]
  {
  }

  /** Where the word starting at i ends: the first whitespace at or after i. */
  function WordEnd(s: string, i: nat): (j: nat)
    requires i <= |s|
    ensures i <= j <= |s|
    ensures i < |s| && !IsSpace(s[i]) ==> i < j
    ensures forall k :: i <= k < j ==> !IsSpace(s[k])
    ensures j < |s| ==> IsSpace(s[j])
    decreases |s| - i
  {
    if i < |s| && !IsSpace(s[i]) then WordEnd(s, i + 1) else i
  }

  /** The whitespace-separated words read by repeated `istream >> std::string`. */
  function Tokens(s: string): (ws: seq<string>)
    decreases |s|
  {
    if s == [] then []
    else if IsSpace(s[0]) then Tokens(s[1..])
    else
      var j := WordEnd(s, 0);
      [s[..j]] + Tokens(s[j..])
  }

  /** Every token is a non-empty run of non-space characters. */
  lemma {:induction false} TokensAreWords(s: string, k: nat)
    requires k < |Tokens(s)|
    ensures Tokens(s)[k] != [] && forall c :: c in Tokens(s)[k] ==> !IsSpace(c)
    decreases |s|
  {
    if IsSpace(s[0]) {
      TokensAreWords(s[1..], k);
    } else if k > 0 {
      TokensAreWords(s[WordEnd(s, 0)..], k - 1);
    }
  }

  /** The first token of a text that starts with a word. */
  lemma TokensFirst(s: string)
    requires s != [] && !IsSpace(s[0])
    ensures Tokens(s) == [s[..WordEnd(s, 0)]] + Tokens(s[WordEnd(s, 0)..])
  {
  }

  /** A run of non-space characters from i to j, ended by a space or the
      end of the text, is the word starting at i. */
  lemma {:induction false} WordEndAt(s: string, i: nat, j: nat)
    requires i <= j <= |s|
    requires forall k :: i <= k < j ==> !IsSpace(s[k])
    requires j == |s| || IsSpace(s[j])
    ensures WordEnd(s, i) == j
    decreases j - i
  {
    if i < j {
      WordEndAt(s, i + 1, j);
    }
  }

  /** Reading tokens from offset i: whitespace there is skipped ... */
  lemma TokensSkipSpace(s: string, i: nat)
    requires i < |s| && IsSpace(s[i])
    ensures Tokens(s[i..]) == Tokens(s[i + 1..])
  {
    assert s[i..][1..] == s[i + 1..];
  }

  /** ... and a word there is the next token. */
  lemma TokensWordAt(s: string, i: nat, j: nat)
    requires i < j <= |s|
    requires forall k :: i <= k < j ==> !IsSpace(s[k])
    requires j == |s| || IsSpace(s[j])
    ensures Tokens(s[i..]) == [s[i..j]] + Tokens(s[j..])
  {
    var u := s[i..];
    assert forall k :: 0 <= k < |u| ==> u[k] == s[i + k];
    WordEndAt(u, 0, j - i);
    assert u[..j - i] == s[i..j];
    assert u[j - i..] == s[j..];
  }

  /** A word: non-empty and free of whitespace. */
  predicate IsWord(w: string)
  {
    w != [] && forall c :: c in w ==> !IsSpace(c)
  }

  /** Words each followed by one space, as the status message is built. */
  function Spaced(ws: seq<string>): string
  {
    if ws == [] then "" else ws[0] + " " + Spaced(ws[1..])
  }

  lemma {:induction false} SpacedSnoc(ws: seq<string>, w: string)
    ensures Spaced(ws + [w]) == Spaced(ws) + w + " "
    decreases |ws|
  {
    if ws != [] {
      assert (ws + [w])[1..] == ws[1..] + [w];
      SpacedSnoc(ws[1..], w);
    }
  }

  /** Re-reading spaced words gives the words back, then the tokens of what follows. */
  lemma {:induction false} TokensSpacedThen(ws: seq<string>, tail: string)
    requires forall k :: 0 <= k < |ws| ==> IsWord(ws[k])
    ensures Tokens(Spaced(ws) + tail) == ws + Tokens(tail)
    decreases |ws|
  {
    if ws == [] {
      assert Spaced(ws) + tail == tail;
    } else {
      var rest := Spaced(ws[1..]) + tail;
      assert Spaced(ws) + tail == ws[0] + " " + rest;
      TokensWordSpace(ws[0], rest);
      TokensSpacedThen(ws[1..], tail);
      assert ws == [ws[0]] + ws[1..];
    }
  }

  /** A word and a space, then more text: the word is the first token. */
  lemma TokensWordSpace(w: string, rest: string)
    requires IsWord(w)
    ensures Tokens(w + " " + rest) == [w] + Tokens(rest)
  {
    var s := w + " " + rest;
    assert forall k :: 0 <= k < |w| ==> s[k] == w[k] && !IsSpace(s[k]);
    TokensWordAt(s, 0, |w|);
    assert s[..|w|] == w && s[0..] == s;
    TokensSkipSpace(s, |w|);
    assert s[|w| + 1..] == rest;
  }

  /** A single word is a single token. */
  lemma TokensOfWord(w: string)
    requires IsWord(w)
    ensures Tokens(w) == [w]
  {
    assert forall k :: 0 <= k < |w| ==> !IsSpace(w[k]);
    TokensWordAt(w, 0, |w|);
    assert w[0..] == w && w[..|w|] == w;
  }

  /** Spaced words hold no carriage return. */
  lemma {:induction false} SpacedNoCr(ws: seq<string>)
    requires forall k :: 0 <= k < |ws| ==> IsWord(ws[k])
    ensures '\r' !in Spaced(ws)
    decreases |ws|
  {
    if ws != [] {
      assert IsWord(ws[0]) && IsSpace('\r');
      SpacedNoCr(ws[1..]);
    }
  }

  /** A line free of carriage returns ends at the first CRLF behind it. */
  lemma FindLineEnd(line: string, rest: string)
    requires '\r' !in line
    ensures Find(line + "\r\n" + rest, "\r\n") == Some(|line|)
  {
    var s := line + "\r\n" + rest;
    forall j | 0 <= j < |line|
      ensures !OccursAt(s, "\r\n", j)
    {
      assert s[j] == line[j];
      if j + 2 <= |s| {
        assert s[j..j + 2][0] == s[j];
      }
    }
    assert s[|line|..|line| + 2] == "\r\n";
    FindFirst(s, "\r\n", 0, |line|);
  }

  /** The first occurrence of pat is at k when it occurs there and nowhere before. */
  lemma FindFirst(s: string, pat: string, from: nat, k: nat)
    requires |pat| > 0 && from <= k && OccursAt(s, pat, k)
    requires forall j :: from <= j < k ==> !OccursAt(s, pat, j)
    ensures FindFrom(s, pat, from) == Some(k)
  {
  }

  /** `erase(remove(s, c))`: every occurrence of c taken out. */
  function Without(s: string, c: char): (r: string)
    ensures c !in r
    ensures |r| <= |s|
  {
    if s == [] then []
    else (if s[0] == c then [] else [s[0]]) + Without(s[1..], c)
  }

  lemma {:induction false} WithoutConcat(a: string, b: string, c: char)
    ensures Without(a + b, c) == Without(a, c) + Without(b, c)
  {
    if a != [] {
      assert (a + b)[1..] == a[1..] + b;
      WithoutConcat(a[1..], b, c);
    } else {
      assert a + b == b;
    }
  }

  lemma WithoutAbsent(s: string, c: char)
    requires c !in s
    ensures Without(s, c) == s
  {
    if s != [] {
      assert c !in s[1..];
      WithoutAbsent(s[1..], c);
    }
  }

  /** A character removed from a string takes no other character with it. */
  lemma {:induction false} WithoutKeeps(s: string, c: char, i: nat)
    requires i < |Without(s, c)|
    ensures Without(s, c)[i] in s && Without(s, c)[i] != c
  {
    var r := Without(s, c);
    assert r[i] != c;
    if s != [] {
      var head: string := if s[0] == c then [] else [s[0]];
      assert r == head + Without(s[1..], c);
      if i >= |head| {
        WithoutKeeps(s[1..], c, i - |head|);
        assert r[i] == Without(s[1..], c)[i - |head|];
      }
    }
  }

  // ---------------------------------------------------------------- integer parsing

  /** `QString::toInt()` in base 10: the whole text, whitespace ignored at
      both ends, must be an optionally signed run of digits whose value fits
      in 32 bits; anything else converts to 0. */
  function QtToInt(s: string): (v: int)
    ensures -0x8000_0000 <= v < 0x8000_0000
  {
    var t := Trim(s);
    var signed := |t| > 0 && (t[0] == '-' || t[0] == '+');
    var body := if signed then t[1..] else t;
    if |body| == 0 || !AllDigits(body) then 0
    else
      var mag: int := DecimalValue(body);
      var v: int := if signed && t[0] == '-' then -mag else mag;
      if -0x8000_0000 <= v < 0x8000_0000 then v else 0
  }

  /** A number printed by `Decimal` converts back with `QString::toInt`. */
  lemma QtToIntDecimal(n: nat)
    requires n < 0x8000_0000
    ensures QtToInt(Decimal(n)) == n
  {
    var s := Decimal(n);
    DecimalRoundTrip(n);
    assert !IsSpace(s[0]) && !IsSpace(s[|s| - 1]);
    assert TrimStart(s) == s;
    assert TrimEnd(s) == s;
  }

  /** Where the leading run of digits of s ends. */
  function DigitsEnd(s: string, i: nat): (j: nat)
    requires i <= |s|
    ensures i <= j <= |s| && AllDigits(s[i..j])
    ensures j < |s| ==> !IsDigit(s[j])
    decreases |s| - i
  {
    if i < |s| && IsDigit(s[i]) then
      var j := DigitsEnd(s, i + 1);
      assert s[i..j] == [s[i]] + s[i + 1..j];
      j
    else i
  }

  /** `std::stoi`: leading whitespace, an optional sign, then the longest run
      of digits; None where it throws (no digits: invalid_argument, outside
      the 32-bit range: out_of_range). */
  function Stoi(s: string): (r: Option<int>)
    ensures r.Some? ==> -0x8000_0000 <= r.value < 0x8000_0000
  {
    var t := TrimStart(s);
    var signed := |t| > 0 && (t[0] == '-' || t[0] == '+');
    var body := if signed then t[1..] else t;
    var digits := body[..DigitsEnd(body, 0)];
    if digits == [] then None
    else
      var mag: int := DecimalValue(digits);
      var v: int := if signed && t[0] == '-' then -mag else mag;
      if -0x8000_0000 <= v < 0x8000_0000 then Some(v) else None
  }

  /** A digit run is read whole. */
  lemma {:induction false} DigitsEndAll(s: string, i: nat)
    requires i <= |s| && AllDigits(s)
    ensures DigitsEnd(s, i) == |s|
    decreases |s| - i
  {
    if i < |s| {
      DigitsEndAll(s, i + 1);
    }
  }

  /** A number printed by `std::to_string` reads back with `std::stoi`. */
  lemma StoiDecimal(n: nat)
    requires n < 0x8000_0000
    ensures Stoi(Decimal(n)) == Some(n)
  {
    var s := Decimal(n);
    assert IsDigit(s[0]) && !IsSpace(s[0]);
    assert TrimStart(s) == s;
    DigitsEndAll(s, 0);
    assert s[..|s|] == s;
    DecimalRoundTrip(n);
  }
}
