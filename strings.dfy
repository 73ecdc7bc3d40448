/** String helpers standing for the JavaScript string methods and the
    handful of fixed regular expressions the extension uses. */
module Strings {
  import opened Wrappers

  // ---------------------------------------------------------------------
  // Character classes

  predicate IsDigit(c: char) { '0' <= c <= '9' }

  predicate AllDigits(s: string) { forall i :: 0 <= i < |s| ==> IsDigit(s[i]) }

  /** The white-space characters `String.prototype.trim` removes (the ASCII
      ones, no-break space, byte-order mark and the line/paragraph separators). */
  predicate IsSpace(c: char) {
    c == ' ' || c == '\t' || c == '\n' || c == '\r' || c == '\U{0B}' || c == '\U{0C}'
    || c == '\U{A0}' || c == '\U{FEFF}' || c == '\U{2028}' || c == '\U{2029}'
  }

  predicate AllSpace(s: string) { forall i :: 0 <= i < |s| ==> IsSpace(s[i]) }

  // ---------------------------------------------------------------------
  // startsWith / includes

  predicate StartsWith(s: string, prefix: string) {
    |prefix| <= |s| && s[..|prefix|] == prefix
  }

  /** `sub` occurs in `s` at index `i`. */
  predicate OccursAt(s: string, sub: string, i: int) {
    0 <= i && i + |sub| <= |s| && s[i..i + |sub|] == sub
  }

  /** `String.prototype.includes`, as a left-to-right scan. */
  function Includes(s: string, sub: string): bool
    decreases |s|
  {
    if StartsWith(s, sub) then true
    else if s == [] then false
    else Includes(s[1..], sub)
  }

  /** The scan finds `sub` exactly when it occurs somewhere in `s`. */
  lemma {:induction false} IncludesSpec(s: string, sub: string)
    ensures Includes(s, sub) <==> exists i :: OccursAt(s, sub, i)
    decreases |s|
  {
    if StartsWith(s, sub) {
      assert OccursAt(s, sub, 0);
    } else if s == [] {
      assert forall i :: OccursAt(s, sub, i) ==> i == 0 && sub == [];
    } else {
      IncludesSpec(s[1..], sub);
      assert forall i :: OccursAt(s[1..], sub, i) ==> OccursAt(s, sub, i + 1);
      assert forall i :: OccursAt(s, sub, i) && i > 0 ==> OccursAt(s[1..], sub, i - 1);
      assert !OccursAt(s, sub, 0);
    }
  }

  // ---------------------------------------------------------------------
  // toLowerCase (ASCII letters only)

  function LowerChar(c: char): char {
    if 'A' <= c <= 'Z' then (c as int + 32) as char else c
  }

  function ToLower(s: string): (r: string)
    ensures |r| == |s|
    ensures forall i :: 0 <= i < |s| ==> r[i] == LowerChar(s[i])
  {
    seq(|s|, i requires 0 <= i < |s| => LowerChar(s[i]))
  }

  // ---------------------------------------------------------------------
  // trim

  function TrimStart(s: string): (r: string)
    ensures |r| <= |s| && r == s[|s| - |r|..]
    ensures AllSpace(s[..|s| - |r|])
    ensures r == [] || !IsSpace(r[0])
    decreases |s|
  {
    if s != [] && IsSpace(s[0]) then TrimStart(s[1..]) else s
  }

  function TrimEnd(s: string): (r: string)
    ensures |r| <= |s| && r == s[..|r|]
    ensures AllSpace(s[|r|..])
    ensures r == [] || !IsSpace(r[|r| - 1])
    decreases |s|
  {
    if s != [] && IsSpace(s[|s| - 1]) then TrimEnd(s[..|s| - 1]) else s
  }

  /** `String.prototype.trim`: the text is blank exactly when every
      character is white space, and what is left neither starts nor ends
      with white space. */
  function Trim(s: string): (r: string)
    ensures r == [] <==> AllSpace(s)
    ensures r == [] || (!IsSpace(r[0]) && !IsSpace(r[|r| - 1]))
    ensures |r| <= |s|
  {
    var a := TrimStart(s);
    var r := TrimEnd(a);
    if r == [] then
      assert a == a[|r|..];
      assert s == s[..|s| - |a|] + a;
      r
    else
      assert r[0] == a[0];
      assert a[0] == s[|s| - |a|];
      r
  }

  /** The trimmed text is the piece of `s` between a run of white space at
      the front and one at the back. */
  lemma TrimSpec(s: string)
    ensures exists i :: 0 <= i <= |s| - |Trim(s)| && Trim(s) == s[i..i + |Trim(s)|] &&
                        AllSpace(s[..i]) && AllSpace(s[i + |Trim(s)|..])
  {
    var a := TrimStart(s);
    TrimPiece(s, |s| - |a|, a, TrimEnd(a));
  }

  /** Trimming the front and then the back leaves a piece of `s` with white
      space on either side. */
  lemma TrimPiece(s: string, i: nat, a: string, r: string)
    requires i <= |s| && a == s[i..] && AllSpace(s[..i])
    requires |r| <= |a| && r == a[..|r|] && AllSpace(a[|r|..])
    ensures r == s[i..i + |r|] && AllSpace(s[i + |r|..])
  {
    assert s[i + |r|..] == a[|r|..];
  }

  // ---------------------------------------------------------------------
  // split / join on one character

  /** `s.split(c)` for a one-character separator `c`: the pieces between
      the separators, empty pieces included. */
  function Split(s: string, c: char): (parts: seq<string>)
    ensures |parts| >= 1
    ensures forall k :: 0 <= k < |parts| ==> c !in parts[k]
    decreases |s|
  {
    if s == [] then [""]
    else
      var rest := Split(s[1..], c);
      if s[0] == c then [""] + rest
      else [[s[0]] + rest[0]] + rest[1..]
  }

  /** The last piece of a split is what follows the last separator: the
      whole text when there is no separator. */
  predicate LastPieceShape(s: string, c: char) {
    var parts := Split(s, c); var last := parts[|parts| - 1];
    |last| <= |s| && last == s[|s| - |last|..] &&
    (|parts| == 1 ==> last == s) &&
    (|parts| > 1 ==> |last| < |s| && s[|s| - |last| - 1] == c)
  }

  /** Every split has that shape, by induction on the text. */
  lemma {:induction false} SplitLast(s: string, c: char)
    ensures var parts := Split(s, c); var last := parts[|parts| - 1];
      |last| <= |s| && last == s[|s| - |last|..] &&
      (|parts| == 1 ==> last == s) &&
      (|parts| > 1 ==> |last| < |s| && s[|s| - |last| - 1] == c)
    decreases |s|
  {
    if s != [] {
      SplitLast(s[1..], c);
      assert LastPieceShape(s[1..], c);
      if s[0] == c {
        SplitLastAfterSeparator(s, c);
      } else {
        SplitLastAfterChar(s, c);
      }
      assert LastPieceShape(s, c);
    }
  }

  /** A leading separator adds an empty first piece and keeps the last. */
  lemma SplitLastAfterSeparator(s: string, c: char)
    requires s != [] && s[0] == c && LastPieceShape(s[1..], c)
    ensures LastPieceShape(s, c)
  {
    var t := s[1..];
    var rest := Split(t, c);
    var tail := rest[|rest| - 1];
    assert |tail| <= |t| == |s| - 1;
    assert t[|t| - |tail|..] == s[|s| - |tail|..];
    var parts := Split(s, c);
    assert parts == [""] + rest;
    assert parts[|parts| - 1] == tail;
    if |rest| > 1 {
      assert s[|s| - |tail| - 1] == t[|t| - |tail| - 1];
    }
  }

  /** A leading non-separator joins the first piece and keeps the last
      unless it was the only one. */
  lemma SplitLastAfterChar(s: string, c: char)
    requires s != [] && s[0] != c && LastPieceShape(s[1..], c)
    ensures LastPieceShape(s, c)
  {
    var t := s[1..];
    var rest := Split(t, c);
    var tail := rest[|rest| - 1];
    assert |tail| <= |t| == |s| - 1;
    assert t[|t| - |tail|..] == s[|s| - |tail|..];
    var parts := Split(s, c);
    if |rest| == 1 {
      assert parts == [[s[0]] + tail];
      assert [s[0]] + t == s;
    } else {
      assert parts == [[s[0]] + rest[0]] + rest[1..];
      assert parts[|parts| - 1] == tail;
      assert s[|s| - |tail| - 1] == t[|t| - |tail| - 1];
    }
  }

  /** `parts.join(sep)`. */
  function Join(parts: seq<string>, sep: string): string
    decreases |parts|
  {
    if |parts| == 0 then ""
    else if |parts| == 1 then parts[0]
    else parts[0] + sep + Join(parts[1..], sep)
  }

  /** Splitting a text that starts with a separator-free piece `p`. */
  lemma {:induction false} SplitConcat(p: string, t: string, c: char)
    requires c !in p
    ensures Split(p + t, c) == [p + Split(t, c)[0]] + Split(t, c)[1..]
    decreases |p|
  {
    if p == [] {
      var q := Split(t, c);
      assert p + t == t;
      assert p + q[0] == q[0];
      assert q == [q[0]] + q[1..];
    } else {
      SplitConcat(p[1..], t, c);
      assert (p + t)[1..] == p[1..] + t;
      assert [p[0]] + (p[1..] + Split(t, c)[0]) == p + Split(t, c)[0];
    }
  }

  /** A piece without the separator splits to itself. */
  lemma SplitNoSeparator(p: string, c: char)
    requires c !in p
    ensures Split(p, c) == [p]
  {
    SplitConcat(p, "", c);
    assert p + "" == p;
  }

  /** Joining the pieces of a split with the separator gives the text back. */
  lemma {:induction false} JoinSplit(s: string, c: char)
    ensures Join(Split(s, c), [c]) == s
    decreases |s|
  {
    if s != [] {
      var rest := Split(s[1..], c);
      JoinSplit(s[1..], c);
      if s[0] == c {
        assert Split(s, c) == [""] + rest;
        assert ([""] + rest)[1..] == rest;
      } else {
        var parts := [[s[0]] + rest[0]] + rest[1..];
        assert Split(s, c) == parts;
        if |rest| == 1 {
          assert Join(parts, [c]) == [s[0]] + rest[0];
        } else {
          assert parts[1..] == rest[1..];
          assert Join(parts, [c]) == ([s[0]] + rest[0]) + [c] + Join(rest[1..], [c]);
          assert Join(rest, [c]) == rest[0] + [c] + Join(rest[1..], [c]);
        }
        assert s == [s[0]] + s[1..];
      }
    }
  }

  /** Splitting a join of separator-free pieces gives the pieces back. */
  lemma {:induction false} SplitJoin(parts: seq<string>, c: char)
    requires |parts| >= 1
    requires forall k :: 0 <= k < |parts| ==> c !in parts[k]
    ensures Split(Join(parts, [c]), c) == parts
    decreases |parts|
  {
    if |parts| == 1 {
      SplitNoSeparator(parts[0], c);
    } else {
      var rest := Join(parts[1..], [c]);
      SplitJoin(parts[1..], c);
      assert Join(parts, [c]) == parts[0] + ([c] + rest);
      SplitConcat(parts[0], [c] + rest, c);
      assert ([c] + rest)[1..] == rest;
      assert Split([c] + rest, c) == [""] + Split(rest, c);
      assert parts[0] + "" == parts[0];
      assert parts == [parts[0]] + parts[1..];
    }
  }

  // ---------------------------------------------------------------------
  // Numbers as text

  function DigitChar(d: int): char
    requires 0 <= d < 10
  {
    ('0' as int + d) as char
  }

  /** The value of a string of decimal digits (`parseInt` of an all-digit text). */
  function DigitsValue(s: string): nat
    requires AllDigits(s)
  {
    if s == [] then 0 else DigitsValue(s[..|s| - 1]) * 10 + (s[|s| - 1] as int - '0' as int)
  }

  /** `n.toString()` for a natural number: digits that read back as `n`,
      with no leading zero. */
  function NatToString(n: nat): (s: string)
    ensures |s| >= 1 && AllDigits(s) && DigitsValue(s) == n
    ensures |s| == 1 || s[0] != '0'
    decreases n
  {
    if n < 10 then [DigitChar(n)]
    else
      var front := NatToString(n / 10);
      var s := front + [DigitChar(n % 10)];
      assert s[..|s| - 1] == front;
      assert s[0] == front[0];
      assert |front| == 1 ==> front[0] != '0' by {
        if |front| == 1 {
          assert front[..0] == [];
        }
      }
      s
  }

  /** `n.toString()` for any integer. */
  function IntToString(n: int): (s: string)
    ensures |s| >= 1
    ensures n >= 0 ==> s == NatToString(n)
    ensures n < 0 ==> s == "-" + NatToString(-n)
  {
    if n >= 0 then NatToString(n) else "-" + NatToString(-n)
  }

  /** `s.padStart(2, '0')`. */
  function PadStart2(s: string): (r: string)
    ensures |r| == if |s| < 2 then 2 else |s|
    ensures r[|r| - |s|..] == s
  {
    if |s| == 0 then "00" else if |s| == 1 then "0" + s else s
  }

  /** A number below 100 padded to two digits reads back as itself. */
  lemma PadStart2Value(n: nat)
    requires n < 100
    ensures |PadStart2(NatToString(n))| == 2
    ensures AllDigits(PadStart2(NatToString(n)))
    ensures DigitsValue(PadStart2(NatToString(n))) == n
  {
    var s := NatToString(n);
    if n < 10 {
      assert s == [DigitChar(n)];
      var r := PadStart2(s);
      assert r == ['0', DigitChar(n)];
      assert r[..1] == ['0'];
      assert DigitsValue(['0']) == 0 by { assert ['0'][..0] == []; }
    } else {
      var q := n / 10;
      assert q < 10;
      assert NatToString(q) == [DigitChar(q)];
      assert |s| == 2;
    }
  }

  /** The longest prefix of decimal digits. */
  function DigitPrefix(s: string): (r: string)
    ensures |r| <= |s| && r == s[..|r|] && AllDigits(r)
    ensures |r| == |s| || !IsDigit(s[|r|])
    decreases |s|
  {
    if s != [] && IsDigit(s[0]) then [s[0]] + DigitPrefix(s[1..]) else ""
  }

  /** The digit prefix stops exactly at the first non-digit. */
  lemma DigitPrefixOf(d: string, t: string)
    requires AllDigits(d)
    requires t == [] || !IsDigit(t[0])
    ensures DigitPrefix(d + t) == d
  {
    var r := DigitPrefix(d + t);
    assert forall i :: 0 <= i < |d| ==> (d + t)[i] == d[i];
    assert |d| < |d + t| ==> (d + t)[|d|] == t[0];
    assert |r| == |d|;
    assert (d + t)[..|d|] == d;
  }

  function Pow10(k: nat): (p: nat)
    ensures p >= 1
  {
    if k == 0 then 1 else 10 * Pow10(k - 1)
  }

  /** `parseInt(s)` (radix 10): optional leading white space and sign, then
      the longest run of digits; `None` is `NaN`. */
  function ParseInt(s: string): (r: Option<int>)
    ensures s != [] && AllDigits(s) ==> r == Some(DigitsValue(s))
  {
    PlainDigits(s);
    var t := TrimStart(s);
    var negative := t != [] && t[0] == '-';
    var u := if t != [] && (t[0] == '-' || t[0] == '+') then t[1..] else t;
    var d := DigitPrefix(u);
    if d == [] then None
    else Some(if negative then -(DigitsValue(d) as int) else DigitsValue(d))
  }

  /** `parseInt` gives `NaN` exactly when no digit follows the white space
      and the optional sign. */
  lemma ParseIntNaN(s: string)
    ensures ParseInt(s).None? <==> (var t := TrimStart(s);
                                    var u := if t != [] && (t[0] == '-' || t[0] == '+') then t[1..] else t;
                                    u == [] || !IsDigit(u[0]))
  {
  }

  /** Reading back a number's decimal text. */
  lemma ParseIntOfNat(n: nat)
    ensures ParseInt(NatToString(n)) == Some(n)
  {
  }

  /** `parseInt` reads back any integer's decimal text, sign included. */
  lemma ParseIntOfInt(n: int)
    ensures ParseInt(IntToString(n)) == Some(n)
  {
    if n < 0 {
      ParseNegative(NatToString(-n));
    }
  }

  /** A minus sign before plain digits negates their value. */
  lemma ParseNegative(t: string)
    requires t != [] && AllDigits(t)
    ensures ParseInt("-" + t).Some? && ParseInt("-" + t).value == -(DigitsValue(t) as int)
  {
    var s := "-" + t;
    assert !IsSpace(s[0]);
    assert s[1..] == t;
    PlainDigits(t);
  }

  /** Plain digit text has no white space to skip and is its own digit
      prefix. */
  lemma PlainDigits(s: string)
    ensures s != [] && AllDigits(s) ==> TrimStart(s) == s && DigitPrefix(s) == s
  {
    if s != [] && AllDigits(s) {
      assert !IsSpace(s[0]);
      DigitPrefixOf(s, "");
      assert s + "" == s;
    }
  }

  /** `parseFloat(s)` for plain decimal text: optional white space and sign,
      digits, an optional fraction; `None` is `NaN`. */
  function ParseFloat(s: string): (r: Option<real>)
    ensures s != [] && AllDigits(s) ==> r == Some(DigitsValue(s) as real)
  {
    PlainDigits(s);
    assert s != [] && AllDigits(s) ==> s[|s|..] == [] && IsDigit(s[0]);
    var t := TrimStart(s);
    var negative := t != [] && t[0] == '-';
    var u := if t != [] && (t[0] == '-' || t[0] == '+') then t[1..] else t;
    var whole := DigitPrefix(u);
    var rest := u[|whole|..];
    var frac := if rest != [] && rest[0] == '.' then DigitPrefix(rest[1..]) else "";
    if whole == [] && frac == [] then None
    else
      var magnitude := DigitsValue(whole) as real + FractionValue(frac);
      Some(if negative then -magnitude else magnitude)
  }

  /** The value of the digits after the decimal point. */
  function FractionValue(frac: string): (v: real)
    requires AllDigits(frac)
    ensures frac == [] ==> v == 0.0
    ensures 0.0 <= v
  {
    DigitsValue(frac) as real / Pow10(|frac|) as real
  }

  /** `parseFloat` of unsigned text `whole.frac` with a non-empty whole part. */
  lemma ParseFloatFields(s: string, w: string, f: string)
    requires s != [] && TrimStart(s) == s && s[0] != '-' && s[0] != '+'
    requires w != [] && DigitPrefix(s) == w && |w| < |s| && s[|w|] == '.'
    requires DigitPrefix(s[|w| + 1..]) == f
    ensures ParseFloat(s).Some? && ParseFloat(s).value == DigitsValue(w) as real + FractionValue(f)
  {
    assert s[|w|..][1..] == s[|w| + 1..];
  }

  /** `parseFloat` reads `whole.frac` as the whole part plus the fraction
      digits scaled by ten to their count. */
  lemma ParseFloatDecimal(w: string, f: string)
    requires w != [] && AllDigits(w) && f != [] && AllDigits(f)
    ensures ParseFloat(w + "." + f).Some?
    ensures ParseFloat(w + "." + f).value == DigitsValue(w) as real + DigitsValue(f) as real / Pow10(|f|) as real
  {
    var s := w + "." + f;
    DecimalText(w, f);
    DecimalPrefix(w, f);
    PlainDigits(f);
    ParseFloatFields(s, w, f);
  }

  /** `whole.frac` has no leading space and its digit prefix is `whole`. */
  lemma DecimalPrefix(w: string, f: string)
    requires w != [] && AllDigits(w)
    ensures TrimStart(w + "." + f) == w + "." + f
    ensures DigitPrefix(w + "." + f) == w
  {
    DecimalText(w, f);
    assert !IsSpace((w + "." + f)[0]);
    DigitPrefixOf(w, "." + f);
  }

  /** Where the parts of `whole.frac` sit in the text. */
  lemma DecimalText(w: string, f: string)
    requires w != []
    ensures w + "." + f == w + ("." + f)
    ensures (w + "." + f)[0] == w[0] && (w + "." + f)[|w|] == '.'
    ensures (w + "." + f)[|w| + 1..] == f
  {
  }

  /** `parseFloat` reads a natural number's text back exactly. */
  lemma ParseFloatOfNat(n: nat)
    ensures ParseFloat(NatToString(n)) == Some(n as real)
  {
  }

  // ---------------------------------------------------------------------
  // The URL pattern /<marker>([^\/]+)/

  /** The longest prefix without a '/' (the capture `([^\/]+)`). */
  function TakeUntilSlash(s: string): (r: string)
    ensures |r| <= |s| && r == s[..|r|] && '/' !in r
    ensures |r| == |s| || s[|r|] == '/'
    decreases |s|
  {
    if s != [] && s[0] != '/' then [s[0]] + TakeUntilSlash(s[1..]) else ""
  }

  /** The pattern /<marker>([^\/]+)/ can start matching at index i. */
  predicate SegmentAt(s: string, marker: string, i: int) {
    OccursAt(s, marker, i) && i + |marker| < |s| && s[i + |marker|] != '/'
  }

  /** Where the leftmost match of /<marker>([^\/]+)/ at or after `from`
      starts, or `|s|` when there is none. */
  function SegmentIndex(s: string, marker: string, from: nat): (k: nat)
    requires from <= |s|
    ensures from <= k <= |s|
    ensures k < |s| ==> SegmentAt(s, marker, k)
    ensures forall j :: from <= j < k ==> !SegmentAt(s, marker, j)
    decreases |s| - from
  {
    if from == |s| || SegmentAt(s, marker, from) then from
    else SegmentIndex(s, marker, from + 1)
  }

  /** `s.match(/<marker>([^\/]+)/)`, giving the captured group of the leftmost
      match: the text after the first occurrence of `marker` that is followed by
      a character other than '/', up to the next '/'. */
  function SegmentAfter(s: string, marker: string): Option<string> {
    var k := SegmentIndex(s, marker, 0);
    if k < |s| then Some(TakeUntilSlash(s[k + |marker|..])) else None
  }

  /** There is no capture exactly when the pattern matches nowhere; a
      capture is the piece after the leftmost match. */
  lemma SegmentAfterSpec(s: string, marker: string)
    ensures SegmentAfter(s, marker).None? <==> forall i :: 0 <= i < |s| ==> !SegmentAt(s, marker, i)
    ensures SegmentAfter(s, marker).Some? ==>
              exists i :: 0 <= i < |s| && SegmentAt(s, marker, i)
                          && (forall j :: 0 <= j < i ==> !SegmentAt(s, marker, j))
                          && SegmentAfter(s, marker).value == TakeUntilSlash(s[i + |marker|..])
  {
    var k := SegmentIndex(s, marker, 0);
    if k < |s| {
      assert SegmentAt(s, marker, k);
    }
  }

  /** The capture of a leftmost match is a non-empty '/'-free piece. */
  lemma SegmentShape(s: string, marker: string)
    requires SegmentAfter(s, marker).Some?
    ensures SegmentAfter(s, marker).value != [] && '/' !in SegmentAfter(s, marker).value
  {
    var k := SegmentIndex(s, marker, 0);
    assert s[k + |marker|..][0] == s[k + |marker|];
  }

  /** The leftmost match position determines the capture. */
  lemma SegmentAfterAt(s: string, marker: string, i: nat)
    requires SegmentAt(s, marker, i)
    requires forall j :: 0 <= j < i ==> !SegmentAt(s, marker, j)
    ensures SegmentAfter(s, marker) == Some(TakeUntilSlash(s[i + |marker|..]))
  {
    var k := SegmentIndex(s, marker, 0);
    assert !(k < i) && !(i < k);
  }

  /** A non-empty '/'-free piece after the leftmost match, followed by the
      end of the text or a '/', is the capture. */
  lemma SegmentOf(s: string, marker: string, i: nat, seg: string)
    requires OccursAt(s, marker, i)
    requires seg != [] && '/' !in seg
    requires i + |marker| + |seg| <= |s| && s[i + |marker|..i + |marker| + |seg|] == seg
    requires i + |marker| + |seg| == |s| || s[i + |marker| + |seg|] == '/'
    requires forall j :: 0 <= j < i ==> !SegmentAt(s, marker, j)
    ensures SegmentAfter(s, marker) == Some(seg)
  {
    var b := i + |marker|;
    var e := b + |seg|;
    assert s[b] == seg[0];
    assert SegmentAt(s, marker, i);
    SegmentAfterAt(s, marker, i);
    assert s[b..] == s[b..e] + s[e..];
    TakeUntilSlashOf(seg, s[e..]);
  }

  /** A '/'-free piece followed by the end of the text or a '/' is
      captured whole. */
  lemma {:induction false} TakeUntilSlashOf(a: string, rest: string)
    requires '/' !in a
    requires rest == [] || rest[0] == '/'
    ensures TakeUntilSlash(a + rest) == a
    decreases |a|
  {
    if a == [] {
      assert a + rest == rest;
    } else {
      assert (a + rest)[0] == a[0];
      assert (a + rest)[1..] == a[1..] + rest;
      TakeUntilSlashOf(a[1..], rest);
      assert [a[0]] + a[1..] == a;
    }
  }

  /** Text found in a prefix is found in the whole. */
  lemma IncludesPrefix(s: string, t: string, sub: string)
    requires Includes(s, sub)
    ensures Includes(s + t, sub)
  {
    IncludesSpec(s, sub);
    IncludesSpec(s + t, sub);
    var j :| OccursAt(s, sub, j);
    assert (s + t)[j..j + |sub|] == s[j..j + |sub|];
    assert OccursAt(s + t, sub, j);
  }
}
