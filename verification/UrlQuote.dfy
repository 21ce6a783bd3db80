/** Percent-encoding (`PERCENT`, `percent_encoded` and `quote` in `_urlparse.py`). */
module UrlQuote {
  import opened Text

  type Octet = n: nat | n < 256

  // ---- characters ----------------------------------------------------------

  predicate IsDigit(c: char) { '0' <= c <= '9' }

  predicate IsUnreserved(c: char) {
    IsDigit(c) || 'A' <= c <= 'Z' || 'a' <= c <= 'z' || c == '-' || c == '.' || c == '_' || c == '~'
  }

  /** Characters `quote` leaves alone. */
  predicate IsSafe(c: char, safe: set<char>) { IsUnreserved(c) || c in safe }

  predicate IsHex(c: char) { IsDigit(c) || 'A' <= c <= 'F' || 'a' <= c <= 'f' }

  function HexDigit(n: nat): (c: char)
    requires n < 16
    ensures IsHex(c) && IsUnreserved(c) && HexValue(c) == n
  {
    if n < 10 then '0' + n as char else 'A' + (n - 10) as char
  }

  function HexValue(c: char): (n: nat)
    requires IsHex(c)
    ensures n < 16
  {
    if IsDigit(c) then c as int - '0' as int
    else if 'A' <= c <= 'F' then c as int - 'A' as int + 10
    else c as int - 'a' as int + 10
  }

  /** The UTF-8 encoding of one character. */
  function Utf8(c: char): (bytes: seq<Octet>)
    ensures bytes != []
  {
    var n := c as int;
    if n < 0x80 then [n]
    else if n < 0x800 then [0xC0 + n / 0x40, 0x80 + n % 0x40]
    else if n < 0x1_0000 then [0xE0 + n / 0x1000, 0x80 + n / 0x40 % 0x40, 0x80 + n % 0x40]
    else [0xF0 + n / 0x4_0000, 0x80 + n / 0x1000 % 0x40, 0x80 + n / 0x40 % 0x40, 0x80 + n % 0x40]
  }

  /** "%XX" for one byte. */
  function Escape(b: Octet): (s: string)
    ensures |s| == 3
  {
    ['%', HexDigit(b / 16), HexDigit(b % 16)]
  }

  /** `PERCENT`. */
  function Percent(bytes: seq<Octet>): string {
    if bytes == [] then "" else Escape(bytes[0]) + Percent(bytes[1..])
  }

  function Encode(c: char, safe: set<char>): string {
    if IsSafe(c, safe) then [c] else Percent(Utf8(c))
  }

  /** Percent-encoding character by character. */
  function EncodeAll(s: string, safe: set<char>): string {
    if s == "" then "" else Encode(s[0], safe) + EncodeAll(s[1..], safe)
  }

  /** An escape sequence stands at the start of `s`. */
  predicate StartsWithEscape(s: string) { |s| >= 3 && s[0] == '%' && IsHex(s[1]) && IsHex(s[2]) }

  /** `quote`, character by character: escape sequences stay, everything else is encoded unless safe. */
  function Quoted(s: string, safe: set<char>): string {
    if s == "" then ""
    else if StartsWithEscape(s) then s[..3] + Quoted(s[3..], safe)
    else Encode(s[0], safe) + Quoted(s[1..], safe)
  }

  // ---- the methods ---------------------------------------------------------

  lemma {:induction false} EncodeSafe(s: string, safe: set<char>)
    requires forall i :: 0 <= i < |s| ==> IsSafe(s[i], safe)
    ensures EncodeAll(s, safe) == s
  {
    if s != "" {
      EncodeSafe(s[1..], safe);
    }
  }

  /** What is left of `s` after trailing safe characters are stripped. */
  method StripSafe(s: string, safe: set<char>) returns (r: string)
    ensures r <= s && (forall i :: |r| <= i < |s| ==> IsSafe(s[i], safe))
    ensures r == "" || !IsSafe(r[|r| - 1], safe)
  {
    var n := |s|;
    while n > 0 && IsSafe(s[n - 1], safe)
      invariant 0 <= n <= |s| && forall i :: n <= i < |s| ==> IsSafe(s[i], safe)
    {
      n := n - 1;
    }
    r := s[..n];
  }

  lemma EncodeStep(s: string, i: nat, r: string, safe: set<char>)
    requires i < |s|
    ensures r + EncodeAll(s[i..], safe) == r + Encode(s[i], safe) + EncodeAll(s[i + 1..], safe)
  {
    assert s[i..][1..] == s[i + 1..] && s[i..][0] == s[i];
  }

  /** The fast path changes nothing. */
  method PercentEncoded(s: string, safe: set<char>) returns (r: string)
    ensures r == EncodeAll(s, safe)
  {
    var rest := StripSafe(s, safe);
    if rest == "" {
      EncodeSafe(s, safe);
      return s;
    }
    r := "";
    for i := 0 to |s|
      invariant r + EncodeAll(s[i..], safe) == EncodeAll(s, safe)
    {
      EncodeStep(s, i, r, safe);
      r := r + Encode(s[i], safe);
    }
    assert s[|s|..] == "";
  }

  /** The next match of the escape-sequence pattern at or after `from`, or the length. */
  method FindEscape(s: string, from: nat) returns (start: nat)
    requires from <= |s|
    ensures from <= start <= |s| && (start < |s| ==> StartsWithEscape(s[start..]))
    ensures forall i :: from <= i < start ==> !StartsWithEscape(s[i..])
  {
    start := from;
    while start < |s| && !StartsWithEscape(s[start..])
      invariant from <= start <= |s|
      invariant forall i :: from <= i < start ==> !StartsWithEscape(s[i..])
    {
      start := start + 1;
    }
  }

  /** A stretch without escape sequences is encoded as a whole. */
  lemma {:induction false} QuotedStretch(s: string, a: nat, b: nat, safe: set<char>)
    requires a <= b <= |s| && forall i :: a <= i < b ==> !StartsWithEscape(s[i..])
    ensures Quoted(s[a..], safe) == EncodeAll(s[a..b], safe) + Quoted(s[b..], safe)
    decreases b - a
  {
    if a < b {
      QuotedStretch(s, a + 1, b, safe);
      assert s[a..][1..] == s[a + 1..] && s[a..b][1..] == s[a + 1..b];
    }
  }

  /** Working from match to match is the same as going character by character. */
  method Quote(s: string, safe: set<char>) returns (r: string)
    ensures r == Quoted(s, safe)
  {
    var parts: seq<string> := [];
    var position := 0;
    var start := FindEscape(s, position);
    assert s[0..] == s;
    while start < |s|
      invariant 0 <= position <= start <= |s| && (start < |s| ==> StartsWithEscape(s[start..]))
      invariant forall i :: position <= i < start ==> !StartsWithEscape(s[i..])
      invariant Concat(parts) + Quoted(s[position..], safe) == Quoted(s, safe)
      decreases |s| - start
    {
      QuotedMatch(Concat(parts), s, position, start, safe);
      parts := AddStretch(parts, s, position, start, safe);
      ConcatAppend(parts, s[start..start + 3]);
      parts := parts + [s[start..start + 3]];
      position := start + 3;
      start := FindEscape(s, position);
    }
    QuotedEnd(s, position, safe);
    parts := AddStretch(parts, s, position, |s|, safe);
    r := Concat(parts);
  }

  /** Adds the encoded text between two matches, if there is any. */
  method AddStretch(parts0: seq<string>, s: string, position: nat, end: nat, safe: set<char>)
      returns (parts: seq<string>)
    requires position <= end <= |s|
    ensures Concat(parts) == Concat(parts0) + EncodeAll(s[position..end], safe)
  {
    parts := parts0;
    if position != end {
      var encoded := PercentEncoded(s[position..end], safe);
      ConcatAppend(parts, encoded);
      parts := parts + [encoded];
    } else {
      assert s[position..end] == "" && Concat(parts) + "" == Concat(parts);
    }
  }

  /** One turn of the loop: a stretch without escape sequences, then one escape sequence. */
  lemma QuotedMatch(before: string, s: string, position: nat, start: nat, safe: set<char>)
    requires position <= start < |s| && StartsWithEscape(s[start..])
    requires forall i :: position <= i < start ==> !StartsWithEscape(s[i..])
    ensures start + 3 <= |s|
    ensures before + Quoted(s[position..], safe)
      == before + EncodeAll(s[position..start], safe) + s[start..start + 3] + Quoted(s[start + 3..], safe)
  {
    QuotedStretch(s, position, start, safe);
    assert s[start..][..3] == s[start..start + 3] && s[start..][3..] == s[start + 3..];
    var stretch, escape, rest := EncodeAll(s[position..start], safe), s[start..start + 3], Quoted(s[start + 3..], safe);
    Associates(before, stretch, escape + rest);
    Associates(before + stretch, escape, rest);
  }

  /** After the last match. */
  lemma QuotedEnd(s: string, position: nat, safe: set<char>)
    requires position <= |s| && forall i :: position <= i < |s| ==> !StartsWithEscape(s[i..])
    ensures Quoted(s[position..], safe) == EncodeAll(s[position..|s|], safe)
  {
    QuotedStretch(s, position, |s|, safe);
    assert s[|s|..] == "";
    assert EncodeAll(s[position..|s|], safe) + "" == EncodeAll(s[position..|s|], safe);
  }

  // ---- what the output means -----------------------------------------------

  /** Every character of the result is unreserved, safe or "%". */
  lemma {:induction false} QuotedAlphabet(s: string, safe: set<char>)
    ensures forall i :: 0 <= i < |Quoted(s, safe)| ==> Quoted(s, safe)[i] == '%' || IsSafe(Quoted(s, safe)[i], safe)
  {
    if s == "" {
    } else if StartsWithEscape(s) {
      QuotedAlphabet(s[3..], safe);
    } else {
      QuotedAlphabet(s[1..], safe);
      PercentAlphabet(Utf8(s[0]));
    }
  }

  lemma {:induction false} PercentAlphabet(bytes: seq<Octet>)
    ensures forall i :: 0 <= i < |Percent(bytes)| ==> Percent(bytes)[i] == '%' || IsUnreserved(Percent(bytes)[i])
  {
    if bytes != [] {
      PercentAlphabet(bytes[1..]);
    }
  }

  /** The octets a text denotes: escape sequences stand for a byte, other characters for their UTF-8 bytes. */
  function Octets(s: string): seq<Octet> {
    if s == "" then []
    else if StartsWithEscape(s) then [HexValue(s[1]) * 16 + HexValue(s[2])] + Octets(s[3..])
    else Utf8(s[0]) + Octets(s[1..])
  }

  lemma EscapeFirst(b: Octet, rest: string, safe: set<char>)
    ensures StartsWithEscape(Escape(b) + rest)
    ensures Quoted(Escape(b) + rest, safe) == Escape(b) + Quoted(rest, safe)
    ensures Octets(Escape(b) + rest) == [b] + Octets(rest)
  {
    var s := Escape(b) + rest;
    assert s[..3] == Escape(b) && s[3..] == rest;
  }

  lemma {:induction false} EscapesFirst(bytes: seq<Octet>, rest: string, safe: set<char>)
    ensures Quoted(Percent(bytes) + rest, safe) == Percent(bytes) + Quoted(rest, safe)
    ensures Octets(Percent(bytes) + rest) == bytes + Octets(rest)
  {
    if bytes == [] {
      assert Percent(bytes) + rest == rest && Percent(bytes) + Quoted(rest, safe) == Quoted(rest, safe);
    } else {
      var tail := Percent(bytes[1..]);
      EscapesFirst(bytes[1..], rest, safe);
      EscapeFirst(bytes[0], tail + rest, safe);
      Associates(Escape(bytes[0]), tail, rest);
      Associates(Escape(bytes[0]), tail, Quoted(rest, safe));
      Associates([bytes[0]], bytes[1..], Octets(rest));
      assert bytes == [bytes[0]] + bytes[1..];
    }
  }

  /** A hexadecimal digit at the front of the result was there before. */
  lemma HexFront(s: string, safe: set<char>)
    requires Quoted(s, safe) != "" && IsHex(Quoted(s, safe)[0])
    ensures s != "" && s[0] == Quoted(s, safe)[0] && !StartsWithEscape(s)
    ensures Quoted(s, safe)[1..] == Quoted(s[1..], safe)
  {
  }

  /** A "%" that starts no escape sequence starts none in front of the quoted rest either. */
  lemma PercentStaysAlone(s: string, safe: set<char>)
    requires s != "" && s[0] == '%' && !StartsWithEscape(s)
    ensures !StartsWithEscape("%" + Quoted(s[1..], safe))
  {
    var q := Quoted(s[1..], safe);
    if StartsWithEscape("%" + q) {
      assert IsHex(("%" + q)[1]) && IsHex(("%" + q)[2]);
      HexFront(s[1..], safe);
      HexFront(s[1..][1..], safe);
    }
  }

  /** A character that is kept stays alone in front of the quoted rest. */
  lemma KeptFirst(s: string, safe: set<char>)
    requires s != "" && !StartsWithEscape(s) && IsSafe(s[0], safe)
    ensures var q := Quoted(s[1..], safe);
      && Quoted([s[0]] + q, safe) == [s[0]] + Quoted(q, safe)
      && Octets([s[0]] + q) == Utf8(s[0]) + Octets(q)
  {
    var q := Quoted(s[1..], safe);
    if s[0] == '%' {
      PercentStaysAlone(s, safe);
      assert "%" + q == [s[0]] + q;
    }
    assert ([s[0]] + q)[1..] == q;
  }

  /** Quoting twice is quoting once. */
  lemma {:induction false} QuotedIsFixed(s: string, safe: set<char>)
    ensures Quoted(Quoted(s, safe), safe) == Quoted(s, safe)
  {
    if s == "" {
    } else if StartsWithEscape(s) {
      QuotedIsFixed(s[3..], safe);
      var q := s[..3] + Quoted(s[3..], safe);
      assert q[..3] == s[..3] && q[3..] == Quoted(s[3..], safe);
    } else {
      QuotedIsFixed(s[1..], safe);
      if IsSafe(s[0], safe) {
        KeptFirst(s, safe);
      } else {
        EscapesFirst(Utf8(s[0]), Quoted(s[1..], safe), safe);
      }
    }
  }

  /** Quoting never changes the octets denoted. */
  lemma {:induction false} QuotedSameOctets(s: string, safe: set<char>)
    ensures Octets(Quoted(s, safe)) == Octets(s)
  {
    if s == "" {
    } else if StartsWithEscape(s) {
      QuotedSameOctets(s[3..], safe);
      var q := s[..3] + Quoted(s[3..], safe);
      assert q[3..] == Quoted(s[3..], safe) && q[1] == s[1] && q[2] == s[2];
    } else {
      QuotedSameOctets(s[1..], safe);
      if IsSafe(s[0], safe) {
        KeptFirst(s, safe);
      } else {
        EscapesFirst(Utf8(s[0]), Quoted(s[1..], safe), safe);
      }
    }
  }

  /** An escape sequence is kept wherever it stands, and what is around it is quoted on its own. */
  lemma {:induction false} QuotedKeepsEscapes(a: string, escape: string, b: string, safe: set<char>)
    requires |escape| == 3 && StartsWithEscape(escape)
    ensures Quoted(a + escape + b, safe) == Quoted(a, safe) + escape + Quoted(b, safe)
    decreases |a|
  {
    var s := a + escape + b;
    if a == "" {
      assert s[..3] == escape && s[3..] == b;
      assert "" + escape == escape;
    } else if StartsWithEscape(a) {
      assert s[..3] == a[..3] && s[3..] == a[3..] + escape + b;
      QuotedKeepsEscapes(a[3..], escape, b, safe);
      Associates(a[..3], Quoted(a[3..], safe) + escape, Quoted(b, safe));
      Associates(a[..3], Quoted(a[3..], safe), escape);
    } else {
      assert s[1..] == a[1..] + escape + b;
      assert !StartsWithEscape(s) by {
        if |a| < 3 && s[0] == '%' { assert s[|a|] == '%'; }
      }
      QuotedKeepsEscapes(a[1..], escape, b, safe);
      Associates(Encode(a[0], safe), Quoted(a[1..], safe) + escape, Quoted(b, safe));
      Associates(Encode(a[0], safe), Quoted(a[1..], safe), escape);
    }
  }
}
