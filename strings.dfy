/** The handful of Python string operations the bot's pipeline uses:
    `str.strip()`, `"sep".join(parts)`, `str(n)` of a non-negative integer,
    the slice `s[:n]`, and the concatenation of a list of strings. */
module Strings {

  /** The characters for which Python's `str.isspace()` holds: the ones
      that `str.strip()` without arguments removes from both ends. */
  const Whitespace: set<char> :=
    {'\t', '\n', '\U{0b}', '\U{0c}', '\r', '\U{1c}', '\U{1d}', '\U{1e}', '\U{1f}', ' ',
          '\U{85}', '\U{a0}', '\U{1680}', '\U{2000}', '\U{2001}', '\U{2002}', '\U{2003}',
          '\U{2004}', '\U{2005}', '\U{2006}', '\U{2007}', '\U{2008}', '\U{2009}', '\U{200a}',
          '\U{2028}', '\U{2029}', '\U{202f}', '\U{205f}', '\U{3000}'}

  predicate IsSpace(c: char) {
    c in Whitespace
  }

  /** How many whitespace characters `s` starts with. */
  function LeadingSpaces(s: string): (n: nat)
    ensures n <= |s|
  {
    if s != [] && IsSpace(s[0]) then 1 + LeadingSpaces(s[1..]) else 0
  }

  /** The leading run counted by `LeadingSpaces` is all whitespace, and the
      character after it is not. */
  lemma {:induction false} LeadingSpacesRun(s: string)
    ensures forall k :: 0 <= k < LeadingSpaces(s) ==> IsSpace(s[k])
    ensures LeadingSpaces(s) < |s| ==> !IsSpace(s[LeadingSpaces(s)])
    decreases |s|
  {
    if s != [] && IsSpace(s[0]) {
      LeadingSpacesRun(s[1..]);
      assert forall k :: 1 <= k < |s| ==> s[k] == s[1..][k - 1];
    }
  }

  /** The length of `s` without the whitespace it ends with. */
  function UntrailedLength(s: string): (n: nat)
    ensures n <= |s|
  {
    if s != [] && IsSpace(s[|s| - 1]) then UntrailedLength(s[..|s| - 1]) else |s|
  }

  /** Everything after `UntrailedLength` is whitespace, and the character
      before it is not. */
  lemma {:induction false} UntrailedRun(s: string)
    ensures forall k :: UntrailedLength(s) <= k < |s| ==> IsSpace(s[k])
    ensures UntrailedLength(s) > 0 ==> !IsSpace(s[UntrailedLength(s) - 1])
    decreases |s|
  {
    if s != [] && IsSpace(s[|s| - 1]) {
      UntrailedRun(s[..|s| - 1]);
    }
  }

  /** Where `s.strip()` ends: after the last character that is not
      whitespace, or where it starts when `s` is all whitespace. */
  function StripEnd(s: string): (e: nat)
    ensures LeadingSpaces(s) <= e <= |s|
  {
    var i, u := LeadingSpaces(s), UntrailedLength(s);
    if u < i then i else u
  }

  /** `s.strip()`. */
  function Strip(s: string): string {
    s[LeadingSpaces(s)..StripEnd(s)]
  }

  /** `s.strip()` is empty exactly when `s` is all whitespace, and otherwise
      it starts and ends with a character that is not whitespace. */
  lemma StripEnds(s: string)
    ensures (Strip(s) == []) <==> (forall k :: 0 <= k < |s| ==> IsSpace(s[k]))
    ensures Strip(s) != [] ==> !IsSpace(Strip(s)[0]) && !IsSpace(Strip(s)[|Strip(s)| - 1])
  {
    LeadingSpacesRun(s);
    UntrailedRun(s);
    var i, u := LeadingSpaces(s), UntrailedLength(s);
    if i < u {
      assert !IsSpace(s[i]);
    }
  }

  /** A string that neither starts nor ends with whitespace is its own
      `strip()`. */
  lemma StripUnchanged(s: string)
    requires s != [] && !IsSpace(s[0]) && !IsSpace(s[|s| - 1])
    ensures Strip(s) == s
  {
    assert LeadingSpaces(s) == 0;
    assert UntrailedLength(s) == |s|;
  }

  /** `s.strip().strip() == s.strip()`. */
  lemma StripIdempotent(s: string)
    ensures Strip(Strip(s)) == Strip(s)
  {
    StripEnds(s);
    if Strip(s) != [] {
      StripUnchanged(Strip(s));
    }
  }

  /** `piece` occurs in `j` starting at offset `o`. */
  predicate PieceAt(j: string, o: nat, piece: string) {
    o + |piece| <= |j| && j[o..o + |piece|] == piece
  }

  /** What `strip` keeps is one contiguous slice of `s`, and everything it
      drops on either side is whitespace. */
  lemma StripIsSlice(s: string)
    ensures PieceAt(s, LeadingSpaces(s), Strip(s))
    ensures forall k :: 0 <= k < LeadingSpaces(s) ==> IsSpace(s[k])
    ensures forall k :: LeadingSpaces(s) + |Strip(s)| <= k < |s| ==> IsSpace(s[k])
  {
    LeadingSpacesRun(s);
    UntrailedRun(s);
    var i, u := LeadingSpaces(s), UntrailedLength(s);
    if u < i {
      assert i == |s|;
    }
  }

  /** `"".join(parts)`: all the strings one after another. */
  function Concat(parts: seq<string>): string {
    if parts == [] then [] else Concat(parts[..|parts| - 1]) + parts[|parts| - 1]
  }

  lemma {:induction false} ConcatAppend(a: seq<string>, b: seq<string>)
    ensures Concat(a + b) == Concat(a) + Concat(b)
    decreases |b|
  {
    if b == [] {
      assert a + b == a;
    } else {
      var b' := b[..|b| - 1];
      assert (a + b)[..|a + b| - 1] == a + b';
      ConcatAppend(a, b');
    }
  }

  /** Sum of the lengths of `parts`. */
  function TotalLength(parts: seq<string>): nat {
    if parts == [] then 0 else TotalLength(parts[..|parts| - 1]) + |parts[|parts| - 1]|
  }

  /** `sep.join(parts)`. */
  function Join(parts: seq<string>, sep: string): string {
    if |parts| == 0 then []
    else if |parts| == 1 then parts[0]
    else Join(parts[..|parts| - 1], sep) + sep + parts[|parts| - 1]
  }

  /** The joined string holds every part and one separator between each
      two neighbours, and nothing else. */
  lemma {:induction false} JoinLength(parts: seq<string>, sep: string)
    requires |parts| > 0
    ensures |Join(parts, sep)| == TotalLength(parts) + |sep| * (|parts| - 1)
    decreases |parts|
  {
    var n := |parts|;
    if n > 1 {
      var init := parts[..n - 1];
      JoinLength(init, sep);
      assert |sep| * (n - 1) == |sep| * (n - 2) + |sep|;
    }
  }

  /** Where the `k`-th part starts in `sep.join(parts)`. */
  function Offset(parts: seq<string>, sep: string, k: nat): nat
    requires k <= |parts|
  {
    TotalLength(parts[..k]) + |sep| * k
  }

  /** Each part appears unchanged at its offset, and a separator follows it
      unless it is the last part. */
  lemma {:induction false} JoinPiece(parts: seq<string>, sep: string, k: nat)
    requires k < |parts|
    ensures PieceAt(Join(parts, sep), Offset(parts, sep, k), parts[k])
    ensures k < |parts| - 1 ==> PieceAt(Join(parts, sep), Offset(parts, sep, k) + |parts[k]|, sep)
    decreases |parts|, 1
  {
    var n := |parts|;
    if n == 1 {
      assert parts[..0] == [];
    } else if k == n - 1 {
      JoinPieceLast(parts, sep);
    } else if k == n - 2 {
      JoinPieceBeforeLast(parts, sep);
    } else {
      JoinPieceEarlier(parts, sep, k);
    }
  }

  /** The last part ends the joined string, right after a separator. */
  lemma JoinPieceLast(parts: seq<string>, sep: string)
    requires |parts| >= 2
    ensures PieceAt(Join(parts, sep), Offset(parts, sep, |parts| - 1), parts[|parts| - 1])
    ensures Offset(parts, sep, |parts| - 1) + |parts[|parts| - 1]| == |Join(parts, sep)|
  {
    var n := |parts|;
    var init := parts[..n - 1];
    var j' := Join(init, sep);
    assert Join(parts, sep) == j' + sep + parts[n - 1];
    JoinLength(init, sep);
    assert |sep| * (n - 1) == |sep| * (n - 2) + |sep|;
    assert Offset(parts, sep, n - 1) == |j'| + |sep|;
  }

  /** The part before the last one ends the join of all but the last part,
      so the separator that `join` adds next follows it. */
  lemma JoinPieceBeforeLast(parts: seq<string>, sep: string)
    requires |parts| >= 2
    ensures PieceAt(Join(parts, sep), Offset(parts, sep, |parts| - 2), parts[|parts| - 2])
    ensures PieceAt(Join(parts, sep), Offset(parts, sep, |parts| - 2) + |parts[|parts| - 2]|, sep)
  {
    var n := |parts|;
    var k := n - 2;
    var init := parts[..n - 1];
    var j', j := Join(init, sep), Join(parts, sep);
    assert j == j' + (sep + parts[n - 1]);
    assert parts[..k] == init[..k] && init[k] == parts[k];
    if k == 0 {
      assert init == [parts[0]];
      assert j' == parts[0];
      assert parts[..0] == [];
    } else {
      JoinPieceLast(init, sep);
    }
    assert Offset(parts, sep, k) == Offset(init, sep, k);
    var o := Offset(parts, sep, k);
    assert o + |parts[k]| == |j'|;
    assert j[o..o + |parts[k]|] == j'[o..];
  }

  /** A part two or more places before the last one, and the separator
      after it, sit where they sit in the join without the last part. */
  lemma {:induction false} JoinPieceEarlier(parts: seq<string>, sep: string, k: nat)
    requires k < |parts| - 2
    ensures PieceAt(Join(parts, sep), Offset(parts, sep, k), parts[k])
    ensures PieceAt(Join(parts, sep), Offset(parts, sep, k) + |parts[k]|, sep)
    decreases |parts|, 0
  {
    var n := |parts|;
    var init := parts[..n - 1];
    var j', j := Join(init, sep), Join(parts, sep);
    assert j == j' + (sep + parts[n - 1]);
    JoinPiece(init, sep, k);
    assert parts[..k] == init[..k] && init[k] == parts[k];
    assert Offset(parts, sep, k) == Offset(init, sep, k);
    var o := Offset(parts, sep, k);
    var e := o + |parts[k]|;
    assert j[o..e] == j'[o..e];
    assert j[e..e + |sep|] == j'[e..e + |sep|];
  }

  predicate IsDigit(c: char) {
    '0' <= c <= '9'
  }

  function DigitValue(c: char): nat
    requires IsDigit(c)
  {
    (c as int) - ('0' as int)
  }

  function DigitChar(d: nat): (c: char)
    requires d < 10
    ensures IsDigit(c) && DigitValue(c) == d
  {
    (('0' as int) + d) as char
  }

  /** `str(n)` for a non-negative integer: its decimal digits, most
      significant first. */
  function Dec(n: nat): (r: string)
    ensures |r| >= 1
    ensures forall k :: 0 <= k < |r| ==> IsDigit(r[k])
  {
    if n < 10 then [DigitChar(n)] else Dec(n / 10) + [DigitChar(n % 10)]
  }

  /** `int(s)` for a string of decimal digits. */
  function ParseDec(s: string): nat
    requires forall k :: 0 <= k < |s| ==> IsDigit(s[k])
  {
    if s == [] then 0 else 10 * ParseDec(s[..|s| - 1]) + DigitValue(s[|s| - 1])
  }

  /** `int(str(n)) == n`; so `str` is injective on non-negative integers. */
  lemma {:induction false} DecRoundTrip(n: nat)
    ensures ParseDec(Dec(n)) == n
  {
    if n >= 10 {
      var d := Dec(n);
      assert d[..|d| - 1] == Dec(n / 10);
      DecRoundTrip(n / 10);
    }
  }

  function Pow10(k: nat): nat {
    if k == 0 then 1 else 10 * Pow10(k - 1)
  }

  /** A number below `10^k` has at most `k` decimal digits. */
  lemma {:induction false} DecLength(n: nat, k: nat)
    requires 1 <= k && n < Pow10(k)
    ensures |Dec(n)| <= k
  {
    if n >= 10 {
      assert Pow10(1) == 10;
      DecLength(n / 10, k - 1);
    }
  }

  /** The slice `s[:n]`. */
  function Truncate(s: string, n: nat): (r: string)
    ensures |r| <= n && r <= s
    ensures |r| == if |s| <= n then |s| else n
  {
    if |s| <= n then s else s[..n]
  }

}
