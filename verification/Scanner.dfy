// The coinbase text scanner of crates/pool-api/src/network.rs: printable ASCII
// and well-formed UTF-8 characters (section 4 of RFC 3629) are kept, every other
// byte is shown as a full stop.  The output text is given by its UTF-8 bytes.

module Scanner {
  import opened Common
  import Hex

  const DOT: Byte := 0x2E

  // ----- UTF-8

  predicate Tail(b: Byte) { 0x80 <= b <= 0xBF }

  // The length of the well-formed character at the start, or zero.
  function CharLength(s: Bytes): (n: nat)
    ensures n <= 4 && n <= |s|
  {
    if s == [] then 0
    else if s[0] <= 0x7F then 1
    else if |s| >= 2 && 0xC2 <= s[0] <= 0xDF && Tail(s[1]) then 2
    else if |s| >= 3 && 0xE0 <= s[0] <= 0xEF && Tail(s[1]) && Tail(s[2])
      && (s[0] == 0xE0 ==> s[1] >= 0xA0) && (s[0] == 0xED ==> s[1] <= 0x9F) then 3
    else if |s| >= 4 && 0xF0 <= s[0] <= 0xF4 && Tail(s[1]) && Tail(s[2]) && Tail(s[3])
      && (s[0] == 0xF0 ==> s[1] >= 0x90) && (s[0] == 0xF4 ==> s[1] <= 0x8F) then 4
    else 0
  }

  predicate ValidUtf8(s: Bytes)
    decreases |s|
  {
    s == [] || (CharLength(s) > 0 && ValidUtf8(s[CharLength(s)..]))
  }

  // The first character is one of U+0000 to U+001F and U+007F to U+009F.
  predicate StartsWithControl(s: Bytes) {
    s != [] && (s[0] <= 0x1F || s[0] == 0x7F || (|s| >= 2 && s[0] == 0xC2 && s[1] <= 0x9F))
  }

  // Valid UTF-8 in which no character is a control character.
  predicate Clean(s: Bytes)
    decreases |s|
  {
    s == [] || (CharLength(s) > 0 && !StartsWithControl(s) && Clean(s[CharLength(s)..]))
  }

  // ----- characters

  predicate IsScalar(c: nat) { c < 0xD800 || 0xE000 <= c < 0x11_0000 }

  // The bytes of one character (section 3 of RFC 3629).
  function Utf8(c: nat): (b: Bytes)
    requires IsScalar(c)
    ensures 1 <= |b| <= 4
  {
    if c < 0x80 then [c]
    else if c < 0x800 then [0xC0 + c / 64, 0x80 + c % 64]
    else if c < 0x1_0000 then [0xE0 + c / 4096, 0x80 + c / 64 % 64, 0x80 + c % 64]
    else [0xF0 + c / 262144, 0x80 + c / 4096 % 64, 0x80 + c / 64 % 64, 0x80 + c % 64]
  }

  // U+0000 to U+001F and U+007F to U+009F.
  predicate IsControl(c: nat) { c <= 0x1F || 0x7F <= c <= 0x9F }

  // The bytes of a character are recognised as one character of their length.
  lemma CharComesBack(c: nat, rest: Bytes)
    requires IsScalar(c)
    ensures CharLength(Utf8(c) + rest) == |Utf8(c)|
    ensures StartsWithControl(Utf8(c) + rest) <==> IsControl(c)
  {
    OneChar(c);
    SameStart(Utf8(c), Utf8(c) + rest);
  }

  lemma OneChar(c: nat)
    requires IsScalar(c)
    ensures CharLength(Utf8(c)) == |Utf8(c)|
    ensures StartsWithControl(Utf8(c)) <==> IsControl(c)
  {
    if c >= 0x1_0000 { LongChar(c); }
    else if c >= 0x800 { MiddleChar(c); }
  }

  lemma MiddleChar(c: nat)
    requires IsScalar(c) && 0x800 <= c < 0x1_0000
    ensures CharLength(Utf8(c)) == |Utf8(c)| && !StartsWithControl(Utf8(c))
  {
    var (high, mid) := (c / 4096, c / 64 % 64);
    assert c == 4096 * high + 64 * mid + c % 64;
  }

  lemma LongChar(c: nat)
    requires IsScalar(c) && 0x1_0000 <= c
    ensures CharLength(Utf8(c)) == |Utf8(c)| && !StartsWithControl(Utf8(c))
  {
    var (high, next) := (c / 262144, c / 4096 % 64);
    assert c / 4096 == 64 * high + next;
  }

  lemma SameStart(b: Bytes, s: Bytes)
    requires b <= s && CharLength(b) == |b| > 0
    ensures CharLength(s) == |b| && (StartsWithControl(s) <==> StartsWithControl(b))
  {
    assert s[0] == b[0];
    if |b| >= 2 { assert s[1] == b[1]; }
    if |b| >= 3 { assert s[2] == b[2]; }
    if |b| >= 4 { assert s[3] == b[3]; }
  }

  lemma TwoBytes(a: Byte, b: Byte) returns (c: nat)
    requires 0xC2 <= a <= 0xDF && Tail(b)
    ensures IsScalar(c) && Utf8(c) == [a, b]
  {
    c := 64 * (a as int - 0xC0) + (b as int - 0x80);
    assert c / 64 == a as int - 0xC0 && c % 64 == b as int - 0x80;
  }

  lemma ThreeBytes(a: Byte, b: Byte, d: Byte) returns (c: nat)
    requires 0xE0 <= a <= 0xEF && Tail(b) && Tail(d) && (a == 0xE0 ==> b >= 0xA0) && (a == 0xED ==> b <= 0x9F)
    ensures IsScalar(c) && Utf8(c) == [a, b, d]
  {
    var high := 64 * (a as int - 0xE0) + (b as int - 0x80);
    c := 64 * high + (d as int - 0x80);
    assert c / 64 == high && c % 64 == d as int - 0x80;
    assert high / 64 == a as int - 0xE0 && high % 64 == b as int - 0x80 && c / 4096 == high / 64;
  }

  lemma FourBytes(a: Byte, b: Byte, d: Byte, e: Byte) returns (c: nat)
    requires 0xF0 <= a <= 0xF4 && Tail(b) && Tail(d) && Tail(e)
    requires (a == 0xF0 ==> b >= 0x90) && (a == 0xF4 ==> b <= 0x8F)
    ensures IsScalar(c) && Utf8(c) == [a, b, d, e]
  {
    var top := 64 * (a as int - 0xF0) + (b as int - 0x80);
    var high := 64 * top + (d as int - 0x80);
    c := 64 * high + (e as int - 0x80);
    assert c / 64 == high && c % 64 == e as int - 0x80;
    assert c / 4096 == top && high % 64 == d as int - 0x80;
    assert c / 262144 == a as int - 0xF0 && top % 64 == b as int - 0x80;
  }

  // And only such bytes are.
  lemma CharOf(s: Bytes) returns (c: nat)
    requires CharLength(s) > 0
    ensures IsScalar(c) && Utf8(c) == s[..CharLength(s)]
  {
    var n := CharLength(s);
    if n == 1 { c := s[0]; }
    else if n == 2 { c := TwoBytes(s[0], s[1]); }
    else if n == 3 { c := ThreeBytes(s[0], s[1], s[2]); }
    else { c := FourBytes(s[0], s[1], s[2], s[3]); }
  }

  function Text(cs: seq<nat>): Bytes
    requires forall i | 0 <= i < |cs| :: IsScalar(cs[i])
  {
    if cs == [] then [] else Utf8(cs[0]) + Text(cs[1..])
  }

  ghost predicate AreShown(cs: seq<nat>) {
    forall i | 0 <= i < |cs| :: IsScalar(cs[i]) && !IsControl(cs[i])
  }

  lemma {:induction false} TextIsClean(cs: seq<nat>)
    requires AreShown(cs)
    ensures Clean(Text(cs))
    decreases cs
  {
    if cs != [] {
      CharComesBack(cs[0], Text(cs[1..]));
      assert Text(cs)[|Utf8(cs[0])|..] == Text(cs[1..]);
      TextIsClean(cs[1..]);
    }
  }

  lemma {:induction false} TextOf(s: Bytes) returns (cs: seq<nat>)
    requires Clean(s)
    ensures AreShown(cs) && Text(cs) == s
    decreases |s|
  {
    cs := [];
    if s != [] {
      var c := CharOf(s);
      var rest := s[CharLength(s)..];
      FrontAndRest(s, CharLength(s));
      CharComesBack(c, rest);
      var more := TextOf(rest);
      cs := [c] + more;
      TextCons(c, more);
    }
  }

  lemma FrontAndRest(s: Bytes, n: nat)
    requires n <= |s|
    ensures s == s[..n] + s[n..]
  {
  }

  lemma TextCons(c: nat, more: seq<nat>)
    requires IsScalar(c) && !IsControl(c) && AreShown(more)
    ensures AreShown([c] + more) && Text([c] + more) == Utf8(c) + Text(more)
  {
    assert ([c] + more)[1..] == more;
  }

  // The clean byte strings are the texts of characters that are no controls.
  lemma CleanExactly(s: Bytes)
    ensures Clean(s) <==> exists cs :: AreShown(cs) && Text(cs) == s
  {
    if Clean(s) {
      var cs := TextOf(s);
    } else {
      forall cs | AreShown(cs) ensures Text(cs) != s { TextIsClean(cs); }
    }
  }

  // ----- the scanner

  predicate Printable(b: Byte) { 0x20 <= b <= 0x7E }

  // How many bytes at the front are kept: one whole character that is no control
  // character, or none.
  function Kept(s: Bytes): (n: nat)
    ensures n <= |s|
  {
    if StartsWithControl(s) then 0 else CharLength(s)
  }

  function Render(s: Bytes): Bytes
    decreases |s|
  {
    if s == [] then []
    else if Kept(s) == 0 then [DOT] + Render(s[1..])
    else s[..Kept(s)] + Render(s[Kept(s)..])
  }

  method HexToAsciiLossy(hex: string) returns (out: Bytes)
    ensures out == match Hex.Decode(hex) case Some(bytes) => Render(bytes) case None => []
  {
    var bytes := match Hex.Decode(hex) case Some(b) => b case None => [];
    out := [];
    var i := 0;
    while i < |bytes|
      invariant i <= |bytes|
      invariant Render(bytes) == out + Render(bytes[i..])
    {
      var shown, next := ScanOne(bytes, i);
      Regroup(out, shown, Render(bytes[next..]));
      out, i := out + shown, next;
    }
  }

  lemma Regroup(a: Bytes, b: Bytes, c: Bytes)
    ensures a + (b + c) == a + b + c
  {
  }

  // One turn of the loop: what is shown for the bytes at i, and where it goes on.
  method ScanOne(bytes: Bytes, i: nat) returns (shown: Bytes, next: nat)
    requires i < |bytes|
    ensures i < next <= |bytes| && Render(bytes[i..]) == shown + Render(bytes[next..])
  {
    var n := CountKept(bytes, i);
    if n == 0 {
      RenderDot(bytes, i);
      return [DOT], i + 1;
    } else {
      RenderKept(bytes, i, n);
      return bytes[i..i + n], i + n;
    }
  }

  method CountKept(bytes: Bytes, i: nat) returns (n: nat)
    requires i < |bytes|
    ensures n == Kept(bytes[i..])
  {
    var b := bytes[i];
    if Printable(b) {
      return 1;
    } else if b >= 0xC2 {
      var maxLen := if b >= 0xF0 then 4 else if b >= 0xE0 then 3 else 2;
      var end := Min(i + maxLen, |bytes|);
      var candidate := bytes[i..end];
      CandidateAt(bytes, i, end);
      return if ValidUtf8(candidate) && !StartsWithControl(candidate) then end - i else 0;
    }
    return 0;
  }

  function MaxLength(lead: Byte): nat {
    if lead >= 0xF0 then 4 else if lead >= 0xE0 then 3 else 2
  }

  // Taking as many bytes as the lead byte asks for and testing them as a whole
  // text is testing for one character.
  lemma CandidateAt(bytes: Bytes, i: nat, end: nat)
    requires i < |bytes| && bytes[i] >= 0xC2 && end == Min(i + MaxLength(bytes[i]), |bytes|)
    ensures var candidate := bytes[i..end];
      Kept(bytes[i..]) == if ValidUtf8(candidate) && !StartsWithControl(candidate) then |candidate| else 0
  {
    var s, candidate := bytes[i..], bytes[i..end];
    assert candidate == s[..end - i];
    CharOfPrefix(s, end - i);
    if CharLength(s) > 0 { OneCharIsValid(candidate); }
  }

  // A prefix as long as its lead byte asks for has the same first character.
  lemma CharOfPrefix(s: Bytes, n: nat)
    requires s != [] && s[0] >= 0xC2 && n == Min(MaxLength(s[0]), |s|)
    ensures CharLength(s[..n]) == CharLength(s)
    ensures CharLength(s) > 0 ==> CharLength(s) == n && StartsWithControl(s[..n]) == StartsWithControl(s)
  {
  }

  lemma OneCharIsValid(c: Bytes)
    requires CharLength(c) == |c| > 0
    ensures ValidUtf8(c)
  {
    assert c[|c|..] == [];
  }

  lemma RenderKept(s: Bytes, i: nat, n: nat)
    requires i < |s| && n > 0 && Kept(s[i..]) == n
    ensures i + n <= |s| && Render(s[i..]) == s[i..i + n] + Render(s[i + n..])
  {
    assert s[i..][..n] == s[i..i + n] && s[i..][n..] == s[i + n..];
  }

  lemma RenderDot(s: Bytes, i: nat)
    requires i < |s| && Kept(s[i..]) == 0
    ensures Render(s[i..]) == [DOT] + Render(s[i + 1..])
  {
    assert s[i..][1..] == s[i + 1..];
  }

  // A character that is no control stands as it is, whatever follows.
  lemma RenderChar(c: nat, rest: Bytes)
    requires IsScalar(c) && !IsControl(c)
    ensures Render(Utf8(c) + rest) == Utf8(c) + Render(rest)
  {
    var s := Utf8(c) + rest;
    CharComesBack(c, rest);
    assert s[..|Utf8(c)|] == Utf8(c) && s[|Utf8(c)|..] == rest;
  }

  // A byte at which no such character starts is shown as a full stop.
  lemma RenderOther(s: Bytes)
    requires s != [] && forall c | IsScalar(c) && !IsControl(c) :: !(Utf8(c) <= s)
    ensures Render(s) == [0x2E] + Render(s[1..])
  {
    if CharLength(s) > 0 {
      var c := CharOf(s);
      assert s == Utf8(c) + s[CharLength(s)..];
      CharComesBack(c, s[CharLength(s)..]);
    }
  }

  // ----- every byte stays in its place

  // Byte by byte, r is s or a full stop, and s where s is printable ASCII.
  ghost predicate InPlace(s: Bytes, r: Bytes) {
    && |r| == |s|
    && forall i | 0 <= i < |s| :: r[i] == s[i] || (r[i] == DOT && !Printable(s[i]))
  }

  // A byte is kept or becomes a full stop; printable ASCII is always kept, so
  // every run of it appears unchanged, contiguous and at its own position.
  lemma {:induction false} RenderInPlace(s: Bytes)
    ensures InPlace(s, Render(s))
    decreases |s|
  {
    if s != [] {
      var n := if Kept(s) == 0 then 1 else Kept(s);
      RenderInPlace(s[n..]);
      var first := if Kept(s) == 0 then [DOT] else s[..n];
      InPlaceConcat(s[..n], first, s[n..], Render(s[n..]));
      assert s == s[..n] + s[n..];
    }
  }

  lemma InPlaceConcat(s: Bytes, r: Bytes, s': Bytes, r': Bytes)
    requires InPlace(s, r) && InPlace(s', r')
    ensures InPlace(s + s', r + r')
  {
  }

  lemma PrintableRunAppears(s: Bytes, i: nat, j: nat)
    requires i <= j <= |s| && forall k | i <= k < j :: Printable(s[k])
    ensures j <= |Render(s)| && Render(s)[i..j] == s[i..j]
  {
    RenderInPlace(s);
  }

  // ----- exactly what is unchanged

  lemma {:induction false} CleanIsUnchanged(s: Bytes)
    requires Clean(s)
    ensures Render(s) == s
    decreases |s|
  {
    if s != [] {
      var n := CharLength(s);
      CleanIsUnchanged(s[n..]);
      assert s == s[..n] + s[n..];
    }
  }

  lemma CharPrefix(s: Bytes, rest: Bytes)
    requires CharLength(s) > 0
    ensures var c := s[..CharLength(s)];
      CharLength(c + rest) == CharLength(s) && StartsWithControl(c + rest) == StartsWithControl(s)
  {
  }

  // The output is always valid UTF-8 without control characters.
  lemma {:induction false} OutputIsClean(s: Bytes)
    ensures Clean(Render(s))
    decreases |s|
  {
    if s != [] {
      var n := Kept(s);
      if n == 0 {
        OutputIsClean(s[1..]);
        assert ([DOT] + Render(s[1..]))[1..] == Render(s[1..]);
      } else {
        OutputIsClean(s[n..]);
        CharPrefix(s, Render(s[n..]));
        assert (s[..n] + Render(s[n..]))[n..] == Render(s[n..]);
      }
    }
  }

  // Clean texts are valid UTF-8.
  lemma {:induction false} CleanIsValid(s: Bytes)
    requires Clean(s)
    ensures ValidUtf8(s)
    decreases |s|
  {
    if s != [] { CleanIsValid(s[CharLength(s)..]); }
  }

  // Whatever the bytes, the output is a text: valid UTF-8 of the same length.
  lemma OutputIsValid(s: Bytes)
    ensures ValidUtf8(Render(s)) && |Render(s)| == |s|
  {
    OutputIsClean(s);
    CleanIsValid(Render(s));
    RenderInPlace(s);
  }

  // The scanner is the identity on exactly the valid UTF-8 texts without control
  // characters, and scanning twice is scanning once.
  lemma UnchangedExactly(s: Bytes)
    ensures Render(s) == s <==> Clean(s)
    ensures Render(Render(s)) == Render(s)
  {
    OutputIsClean(s);
    CleanIsUnchanged(Render(s));
    if Clean(s) { CleanIsUnchanged(s); }
  }

}
