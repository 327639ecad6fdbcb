/** String handling the scoreboard relies on: JavaScript's `String.prototype.trim`,
    the name-list split on newline or comma, decimal rendering of non-negative
    integers and `padStart`. Strings are sequences of Unicode scalar values. */
module Text {
  import opened Wrappers


  /** The characters `trim` removes: ECMAScript WhiteSpace (tab, vertical tab,
      form feed, space, no-break space, byte-order mark and the Unicode space
      separators) and LineTerminator (line feed, carriage return, U+2028, U+2029). */
  predicate IsSpace(c: char) {
    || ('\t' <= c <= '\r') || c == ' ' || c == '\U{A0}' || c == '\U{1680}'
    || ('\U{2000}' <= c <= '\U{200A}') || c == '\U{2028}' || c == '\U{2029}'
    || c == '\U{202F}' || c == '\U{205F}' || c == '\U{3000}' || c == '\U{FEFF}'
  }

  predicate AllSpace(s: string) {
    forall i :: 0 <= i < |s| ==> IsSpace(s[i])
  }

  /** Removes leading whitespace. */
  function TrimStart(s: string): string {
    if s != [] && IsSpace(s[0]) then TrimStart(s[1..]) else s
  }

  /** Removes trailing whitespace. */
  function TrimEnd(s: string): string {
    if s != [] && IsSpace(s[|s| - 1]) then TrimEnd(s[..|s| - 1]) else s
  }

  /** TrimStart keeps the suffix of s that starts at the first non-space
      character. */
  lemma {:induction false} TrimStartShape(s: string)
    ensures |TrimStart(s)| <= |s| && TrimStart(s) == s[|s| - |TrimStart(s)|..]
    ensures forall i :: 0 <= i < |s| - |TrimStart(s)| ==> IsSpace(s[i])
    ensures TrimStart(s) == [] || !IsSpace(TrimStart(s)[0])
  {
    if s != [] && IsSpace(s[0]) {
      TrimStartShape(s[1..]);
      var k := |s| - |TrimStart(s)|;
      assert s[1..][k - 1..] == s[k..];
      forall i | 0 < i < k
        ensures IsSpace(s[i])
      {
        assert s[i] == s[1..][i - 1];
      }
    }
  }

  /** TrimEnd keeps the prefix of s that ends at the last non-space
      character. */
  lemma {:induction false} TrimEndShape(s: string)
    ensures |TrimEnd(s)| <= |s| && TrimEnd(s) == s[..|TrimEnd(s)|]
    ensures forall i :: |TrimEnd(s)| <= i < |s| ==> IsSpace(s[i])
    ensures TrimEnd(s) == [] || !IsSpace(TrimEnd(s)[|TrimEnd(s)| - 1])
  {
    if s != [] && IsSpace(s[|s| - 1]) {
      TrimEndShape(s[..|s| - 1]);
      var k := |TrimEnd(s)|;
      assert s[..|s| - 1][..k] == s[..k];
      forall i | k <= i < |s| - 1
        ensures IsSpace(s[i])
      {
        assert s[i] == s[..|s| - 1][i];
      }
    }
  }

  /** `s.trim()`: whitespace dropped at both ends. The result is empty exactly
      when s is blank; otherwise it starts and ends with a non-space character.
      TrimIsInfix states where in s it sits. */
  function Trim(s: string): (r: string)
    ensures |r| <= |s|
    ensures r == [] || (!IsSpace(r[0]) && !IsSpace(r[|r| - 1]))
  {
    TrimStartShape(s);
    TrimEndShape(TrimStart(s));
    TrimEnd(TrimStart(s))
  }

  /** The trimmed string is the infix of s between a blank prefix and a blank
      suffix. */
  lemma TrimIsInfix(s: string)
    ensures |TrimStart(s)| <= |s|
    ensures var r := Trim(s);
            var lo := |s| - |TrimStart(s)|;
            && lo + |r| <= |s|
            && r == s[lo..lo + |r|]
            && AllSpace(s[..lo]) && AllSpace(s[lo + |r|..])
  {
    var t := TrimStart(s);
    TrimStartShape(s);
    TrimEndShape(t);
    var r := TrimEnd(t);
    var lo := |s| - |t|;
    assert t == s[lo..];
    assert r == s[lo..][..|r|] == s[lo..lo + |r|];
    var tail, head := s[lo + |r|..], s[..lo];
    forall i | 0 <= i < |tail|
      ensures IsSpace(tail[i])
    {
      assert tail[i] == t[|r| + i];
    }
    forall i | 0 <= i < |head|
      ensures IsSpace(head[i])
    {
      assert head[i] == s[i];
    }
  }

  lemma {:induction false} TrimStartOfBlank(s: string)
    requires AllSpace(s)
    ensures TrimStart(s) == []
  {
    if s != [] {
      assert AllSpace(s[1..]) by {
        forall i | 0 <= i < |s[1..]|
          ensures IsSpace(s[1..][i])
        {
          assert s[1..][i] == s[i + 1];
        }
      }
      TrimStartOfBlank(s[1..]);
    }
  }

  /** Trimming yields the empty string exactly when s is all whitespace. */
  lemma TrimEmptyIffBlank(s: string)
    ensures Trim(s) == [] <==> AllSpace(s)
  {
    if AllSpace(s) {
      TrimStartOfBlank(s);
      assert TrimEnd([]) == [];
    }
    if Trim(s) == [] {
      TrimStartShape(s);
      TrimEndShape(TrimStart(s));
      assert TrimStart(s) == [];
    }
  }

  /** The separators of a pasted player list (`/[\n,]/`). */
  predicate IsNameSeparator(c: char) {
    c == '\n' || c == ','
  }

  function CountSeparators(s: string): nat {
    if s == [] then 0 else (if IsNameSeparator(s[0]) then 1 else 0) + CountSeparators(s[1..])
  }

  function RemoveSeparators(s: string): string {
    if s == [] then [] else (if IsNameSeparator(s[0]) then [] else [s[0]]) + RemoveSeparators(s[1..])
  }

  function Concat(ss: seq<string>): string {
    if ss == [] then [] else ss[0] + Concat(ss[1..])
  }

  predicate NoSeparator(s: string) {
    forall i :: 0 <= i < |s| ==> !IsNameSeparator(s[i])
  }

  /** `s.split(/[\n,]/)`: one more piece than there are separators, no piece
      holds a separator, and the pieces spell out s with its separators removed. */
  function SplitNames(s: string): (r: seq<string>)
    ensures |r| == 1 + CountSeparators(s)
    ensures forall i :: 0 <= i < |r| ==> NoSeparator(r[i])
  {
    if s == [] then [""]
    else
      var rest := SplitNames(s[1..]);
      if IsNameSeparator(s[0]) then [""] + rest
      else [[s[0]] + rest[0]] + rest[1..]
  }

  /** Joining the pieces back together gives the text without its separators:
      the split loses nothing but the separators. */
  lemma {:induction false} SplitNamesSpellsText(s: string)
    ensures Concat(SplitNames(s)) == RemoveSeparators(s)
  {
    if s != [] {
      SplitNamesSpellsText(s[1..]);
      var rest := SplitNames(s[1..]);
      assert Concat(rest) == rest[0] + Concat(rest[1..]);
      if !IsNameSeparator(s[0]) {
        var r := [[s[0]] + rest[0]] + rest[1..];
        assert r[1..] == rest[1..];
        assert Concat(r) == ([s[0]] + rest[0]) + Concat(rest[1..]);
      }
    }
  }

  /** `.map(n => n.trim()).filter(n => n.length > 0)` */
  function TrimAndDropEmpty(ps: seq<string>): seq<string> {
    if ps == [] then [] else KeepTrimmed(ps[0]) + TrimAndDropEmpty(ps[1..])
  }

  /** What one piece contributes: its trimmed self, or nothing when blank. */
  function KeepTrimmed(p: string): seq<string> {
    if Trim(p) == [] then [] else [Trim(p)]
  }

  predicate IsCleanName(n: string) {
    && n != []
    && !IsSpace(n[0]) && !IsSpace(n[|n| - 1])
    && NoSeparator(n)
  }

  /** The name list parser shared by the roster generator and the player
      manager: split on newline or comma, trim every piece, drop empty ones.
      Every name it yields is non-empty, trimmed and separator-free. */
  function ParseNames(text: string): (names: seq<string>)
    ensures forall i :: 0 <= i < |names| ==> IsCleanName(names[i])
  {
    TrimAndDropEmptyClean(SplitNames(text));
    TrimAndDropEmpty(SplitNames(text))
  }

  lemma {:induction false} TrimAndDropEmptyClean(ps: seq<string>)
    requires forall i :: 0 <= i < |ps| ==> NoSeparator(ps[i])
    ensures forall i :: 0 <= i < |TrimAndDropEmpty(ps)| ==> IsCleanName(TrimAndDropEmpty(ps)[i])
  {
    if ps != [] {
      TrimAndDropEmptyClean(ps[1..]);
      TrimKeepsNoSeparator(ps[0]);
    }
  }

  lemma TrimKeepsNoSeparator(s: string)
    requires NoSeparator(s)
    ensures NoSeparator(Trim(s))
  {
    TrimIsInfix(s);
    var t := Trim(s);
    var lo := |s| - |TrimStart(s)|;
    assert forall k :: 0 <= k < |t| ==> t[k] == s[lo + k];
  }

  lemma {:induction false} TrimAndDropEmptyAppend(a: seq<string>, b: seq<string>)
    ensures TrimAndDropEmpty(a + b) == TrimAndDropEmpty(a) + TrimAndDropEmpty(b)
  {
    if a == [] {
      assert a + b == b;
    } else {
      HeadTailOfAppend(a, b);
      TrimAndDropEmptyAppend(a[1..], b);
      AppendAssoc(KeepTrimmed(a[0]), TrimAndDropEmpty(a[1..]), TrimAndDropEmpty(b));
    }
  }

  lemma AppendAssoc<T>(x: seq<T>, y: seq<T>, z: seq<T>)
    ensures x + (y + z) == (x + y) + z
  {
  }

  lemma TrimAndDropEmptyCons(x: string, rest: seq<string>)
    ensures TrimAndDropEmpty([x] + rest) == KeepTrimmed(x) + TrimAndDropEmpty(rest)
  {
    assert ([x] + rest)[1..] == rest;
  }

  lemma {:induction false} SplitNamesAtSeparator(a: string, c: char, b: string)
    requires IsNameSeparator(c)
    ensures SplitNames(a + [c] + b) == SplitNames(a) + SplitNames(b)
  {
    if a == [] {
      assert a + [c] + b == [c] + b;
      SplitNamesCons(c, b);
    } else {
      var rest := a[1..] + [c] + b;
      ConsAppend(a, c, b);
      SplitNamesAtSeparator(a[1..], c, b);
      SplitNamesCons(a[0], rest);
      SplitNamesCons(a[0], a[1..]);
      var ra, rb := SplitNames(a[1..]), SplitNames(b);
      if IsNameSeparator(a[0]) {
        AppendAssoc([""], ra, rb);
      } else {
        HeadTailOfAppend(ra, rb);
        AppendAssoc([[a[0]] + ra[0]], ra[1..], rb);
      }
    }
  }

  /** How the split treats its first character. */
  lemma SplitNamesCons(x: char, rest: string)
    ensures SplitNames([x] + rest) ==
            if IsNameSeparator(x) then [""] + SplitNames(rest)
            else [[x] + SplitNames(rest)[0]] + SplitNames(rest)[1..]
  {
    assert ([x] + rest)[1..] == rest;
  }

  lemma ConsAppend(a: string, c: char, b: string)
    requires a != []
    ensures a + [c] + b == [a[0]] + (a[1..] + [c] + b)
    ensures a == [a[0]] + a[1..]
  {
  }

  lemma HeadTailOfAppend<T>(x: seq<T>, y: seq<T>)
    requires x != []
    ensures (x + y)[0] == x[0] && (x + y)[1..] == x[1..] + y
  {
  }

  /** A separator splits the name list into two independent lists: parsing
      `a + "," + b` (or `a + "\n" + b`) gives the names of a followed by the
      names of b. */
  lemma ParseNamesAtSeparator(a: string, c: char, b: string)
    requires IsNameSeparator(c)
    ensures ParseNames(a + [c] + b) == ParseNames(a) + ParseNames(b)
  {
    SplitNamesAtSeparator(a, c, b);
    TrimAndDropEmptyAppend(SplitNames(a), SplitNames(b));
  }

  /** A text without separators is a single name: its trimmed self, or nothing
      when it is blank. */
  lemma ParseNamesSingle(s: string)
    requires NoSeparator(s)
    ensures ParseNames(s) == if AllSpace(s) then [] else [Trim(s)]
  {
    NoSeparatorSplit(s);
    TrimEmptyIffBlank(s);
    TrimAndDropEmptySingle(s);
  }

  lemma TrimAndDropEmptySingle(x: string)
    ensures TrimAndDropEmpty([x]) == KeepTrimmed(x)
  {
    assert [x][1..] == [];
  }

  lemma {:induction false} NoSeparatorSplit(s: string)
    requires NoSeparator(s)
    ensures SplitNames(s) == [s]
  {
    if s != [] {
      NoSeparatorSplit(s[1..]);
      assert [s[0]] + s[1..] == s;
    }
  }

  // ---------------------------------------------------------------------------
  // Decimal numbers: `n.toString()` for non-negative integers and its inverse.

  function DigitChar(d: nat): (c: char)
    requires d < 10
    ensures '0' <= c <= '9' && (c as int) - ('0' as int) == d
  {
    (('0' as int) + d) as char
  }

  predicate IsDigit(c: char) {
    '0' <= c <= '9'
  }

  /** Reads a string of decimal digits (leading zeros allowed); None when a
      character is not a digit. The empty string reads as 0. */
  function ReadDigits(s: string): Option<nat> {
    if s == [] then Some(0)
    else if !IsDigit(s[|s| - 1]) then None
    else match ReadDigits(s[..|s| - 1])
         case None => None
         case Some(v) => Some(10 * v + ((s[|s| - 1] as int) - ('0' as int)))
  }

  /** `n.toString()` for a non-negative integer: no leading zero, one digit
      exactly below ten. */
  function DecimalString(n: nat): (r: string)
    ensures |r| >= 1
    ensures r[0] == '0' ==> n == 0
    ensures n < 10 <==> |r| == 1
    ensures n < 100 ==> |r| <= 2
  {
    if n < 10 then [DigitChar(n)]
    else DecimalString(n / 10) + [DigitChar(n % 10)]
  }

  /** Reading the decimal string back gives the number. */
  lemma {:induction false} DecimalStringValue(n: nat)
    ensures ReadDigits(DecimalString(n)) == Some(n)
  {
    if n >= 10 {
      var r := DecimalString(n);
      DecimalStringValue(n / 10);
      assert r[..|r| - 1] == DecimalString(n / 10);
    }
  }

  /** `s.padStart(width, fill)` with a one-character fill: s itself when it is
      already wide enough, otherwise s preceded by enough fill characters to
      reach the width. */
  function PadStart(s: string, width: nat, fill: char): string
    decreases width - |s|
  {
    if |s| >= width then s else PadStart([fill] + s, width, fill)
  }

  lemma {:induction false} PadStartShape(s: string, width: nat, fill: char)
    ensures var r := PadStart(s, width, fill);
            && |r| == (if |s| >= width then |s| else width)
            && r[|r| - |s|..] == s
            && forall i :: 0 <= i < |r| - |s| ==> r[i] == fill
    decreases width - |s|
  {
    if |s| < width {
      var t := [fill] + s;
      PadStartShape(t, width, fill);
      var r := PadStart(t, width, fill);
      assert r == PadStart(s, width, fill);
      assert r[|r| - |s|..] == r[|r| - |t|..][1..];
      forall i | 0 <= i < |r| - |s|
        ensures r[i] == fill
      {
        if i == |r| - |t| {
          assert r[i] == r[|r| - |t|..][0];
        }
      }
    }
  }
}
