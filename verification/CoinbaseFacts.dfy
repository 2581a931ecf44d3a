// What the coinbase rewrite guarantees: which bytes change, when it is
// accepted, that it is idempotent, that the pool recognises its own blocks, and
// what the block commitment binds.

module CoinbaseFacts {
  import opened Common
  import opened AuthMerkle
  import opened Coinbase
  import Hex
  import CompactSize

  // ----- parsing and serializing are inverse

  // The fields of a coinbase as the parser accepts them.
  ghost predicate WellFormed(l: Layout) {
    && HeaderLength(l.header) == Ok(|l.header|)
    && CompactSize.Read(l.count, 0) == Ok((1, |l.count|))
    && |l.prevout| == 36
    && CompactSize.Read(l.sigLength, 0) == Ok((|l.scriptSig|, |l.sigLength|))
  }

  predicate IsV6(data: Bytes) {
    |data| >= 4 && data[..4] == V6
  }

  lemma ReadOwnBytes(data: Bytes, offset: nat)
    requires CompactSize.Read(data, offset).Ok?
    ensures var (value, width) := CompactSize.Read(data, offset).value;
      && offset + width <= |data| && 1 <= width <= 9
      && CompactSize.Read(data[offset..offset + width], 0) == Ok((value, width))
  {
    var width := CompactSize.Read(data, offset).value.1;
    var code := data[offset..offset + width];
    assert code[1..width] == data[offset + 1..offset + width];
  }

  lemma ReadInContext(before: Bytes, code: Bytes, after: Bytes, value: nat)
    requires CompactSize.Read(code, 0) == Ok((value, |code|))
    ensures CompactSize.Read(before + code + after, |before|) == Ok((value, |code|))
  {
    var data, w := before + code + after, |code|;
    assert code == data[|before|..|before| + w];
    assert code[1..w] == data[|before| + 1..|before| + w];
    assert data[|before|] == code[0];
  }

  lemma LayoutAtSerializes(data: Bytes, h: nat, prevout: nat, start: nat, end: nat)
    requires h <= prevout && prevout + 36 <= start <= end <= |data|
    ensures LayoutAt(data, h, prevout, start, end).Serialize() == data
  {
    assert data[..h] + data[h..prevout] == data[..prevout];
    assert data[..prevout] + data[prevout..prevout + 36] == data[..prevout + 36];
    assert data[..prevout + 36] + data[prevout + 36..start] == data[..start];
    assert data[..start] + data[start..end] == data[..end];
  }

  lemma ScriptSigGivesFields(data: Bytes, h: nat, prevout: nat, l: Layout)
    requires h <= prevout && prevout + 36 < |data| && ParseScriptSig(data, h, prevout) == Ok(l)
    ensures l.header == data[..h] && l.count == data[h..prevout] && |l.prevout| == 36
    ensures CompactSize.Read(l.sigLength, 0) == Ok((|l.scriptSig|, |l.sigLength|))
    ensures data == l.Serialize()
  {
    var (length, width) := CompactSize.Read(data, prevout + 36).value;
    ReadOwnBytes(data, prevout + 36);
    var start := prevout + 36 + width;
    assert l == LayoutAt(data, h, prevout, start, start + length);
    assert l.sigLength == data[prevout + 36..prevout + 36 + width] && |l.scriptSig| == length;
    LayoutAtSerializes(data, h, prevout, start, start + length);
  }

  lemma ParseGivesFields(data: Bytes, l: Layout)
    requires Parse(data) == Ok(l)
    ensures WellFormed(l) && data == l.Serialize() && !IsV6(data)
  {
    var h := HeaderLength(data).value;
    var width := CompactSize.Read(data, h).value.1;
    ReadOwnBytes(data, h);
    ScriptSigGivesFields(data, h, h + width, l);
    assert l.header[..4] == data[..4];
  }

  lemma ScriptSigFieldsParse(l: Layout)
    requires |l.prevout| == 36 && CompactSize.Read(l.sigLength, 0) == Ok((|l.scriptSig|, |l.sigLength|))
    ensures |l.header| + |l.count| + 36 < |l.Serialize()|
    ensures ParseScriptSig(l.Serialize(), |l.header|, |l.header| + |l.count|) == Ok(l)
  {
    LengthReads(l);
    FieldOffsets(l);
  }

  lemma LengthReads(l: Layout)
    requires |l.prevout| == 36 && CompactSize.Read(l.sigLength, 0) == Ok((|l.scriptSig|, |l.sigLength|))
    ensures CompactSize.Read(l.Serialize(), |l.header| + |l.count| + 36) == Ok((|l.scriptSig|, |l.sigLength|))
  {
    var head := l.header + l.count + l.prevout;
    assert l.Serialize() == head + l.sigLength + (l.scriptSig + l.rest);
    ReadInContext(head, l.sigLength, l.scriptSig + l.rest, |l.scriptSig|);
  }

  lemma CountReads(l: Layout)
    requires CompactSize.Read(l.count, 0) == Ok((1, |l.count|))
    ensures CompactSize.Read(l.Serialize(), |l.header|) == Ok((1, |l.count|))
  {
    var tail := l.prevout + l.sigLength + l.scriptSig + l.rest;
    assert l.Serialize() == l.header + l.count + tail;
    ReadInContext(l.header, l.count, tail, 1);
  }

  lemma FieldsParse(l: Layout)
    requires WellFormed(l)
    ensures Parse(l.Serialize()) == Ok(l)
  {
    HeaderReads(l);
    CountReads(l);
    ScriptSigFieldsParse(l);
  }

  lemma HeaderReads(l: Layout)
    requires HeaderLength(l.header) == Ok(|l.header|)
    ensures HeaderLength(l.Serialize()) == Ok(|l.header|)
  {
    assert l.Serialize()[..4] == l.header[..4];
  }

  lemma FieldOffsets(l: Layout)
    requires |l.prevout| == 36
    ensures var (h, p) := (|l.header|, |l.header| + |l.count|);
      var start := p + 36 + |l.sigLength|;
      LayoutAt(l.Serialize(), h, p, start, start + |l.scriptSig|) == l
  {
    var head := l.header + l.count;
    var prefix := head + l.prevout + l.sigLength;
    var s := prefix + l.scriptSig + l.rest;
    Piece(s, s, prefix + l.scriptSig, l.rest);
    Piece(s, prefix + l.scriptSig, prefix, l.scriptSig);
    Piece(s, prefix, head + l.prevout, l.sigLength);
    Piece(s, head + l.prevout, head, l.prevout);
    Piece(s, head, l.header, l.count);
  }

  lemma Piece(s: Bytes, prefix: Bytes, front: Bytes, piece: Bytes)
    requires prefix <= s && prefix == front + piece
    ensures front <= s && s[..|front|] == front && s[|front|..|prefix|] == piece
  {
  }

  lemma ParseIsInverse(data: Bytes, l: Layout)
    ensures Parse(data) == Ok(l) <==> WellFormed(l) && data == l.Serialize()
  {
    if Parse(data) == Ok(l) { ParseGivesFields(data, l); }
    else if WellFormed(l) { FieldsParse(l); }
  }

  // ----- what one injection does

  lemma TaggedIsWellFormed(l: Layout, tag: Bytes)
    requires WellFormed(l) && |l.scriptSig| + |tag| <= MAX_SCRIPT_SIG_LEN
    ensures WellFormed(Tagged(l, tag)) && Tagged(l, tag).IsV5() == l.IsV5()
  {
  }

  lemma ContainsSuffix(a: Bytes, b: Bytes)
    ensures Contains(a + b, b)
  {
    assert OccursAt(a + b, b, |a|);
  }

  // An accepted version 4 or 5 injection re-parses to the same header, input
  // count, prevout and trailing bytes; the scriptSig carries the tag and is the
  // old one, or the old one followed by the tag and at most 100 bytes long.
  lemma InjectionReparses(h: Hash, sha256d: Bytes -> Digest, v6: Rewrite,
                          coinbaseHex: string, tag: Bytes, historyText: string, texts: seq<string>)
    requires Injected(h, sha256d, v6, coinbaseHex, tag, historyText, texts).Ok?
    requires !IsV6(Hex.Decode(coinbaseHex).value)
    ensures Parse(Hex.Decode(coinbaseHex).value).Ok?
    ensures var r := Injected(h, sha256d, v6, coinbaseHex, tag, historyText, texts).value;
      var l := Parse(Hex.Decode(coinbaseHex).value).value;
      && Hex.Decode(r.coinbaseHex).Some? && Parse(Hex.Decode(r.coinbaseHex).value).Ok?
      && var m := Parse(Hex.Decode(r.coinbaseHex).value).value;
      && m.header == l.header && m.count == l.count && m.prevout == l.prevout && m.rest == l.rest
      && Contains(m.scriptSig, tag)
      && if Contains(l.scriptSig, tag) then r == Injection(coinbaseHex, None, None)
         else m.scriptSig == l.scriptSig + tag && |m.scriptSig| <= MAX_SCRIPT_SIG_LEN
  {
    var data := Hex.Decode(coinbaseHex).value;
    var l := Parse(data).value;
    if !Contains(l.scriptSig, tag) {
      var m := Tagged(l, tag);
      ParseGivesFields(data, l);
      TaggedIsWellFormed(l, tag);
      FieldsParse(m);
      Hex.DecodeEncode(m.Serialize());
      ContainsSuffix(l.scriptSig, tag);
    }
  }

  // The reported values belong to the returned transaction: the txid is the
  // reversed hash of its bytes, and the commitment is the one computed from its
  // own re-parsed fields.
  lemma ReportsReturnedTransaction(h: Hash, sha256d: Bytes -> Digest, v6: Rewrite,
                                   coinbaseHex: string, tag: Bytes, historyText: string, texts: seq<string>)
    requires Injected(h, sha256d, v6, coinbaseHex, tag, historyText, texts).Ok?
    requires !IsV6(Hex.Decode(coinbaseHex).value)
    requires Parse(Hex.Decode(coinbaseHex).value).Ok?
    requires !Contains(Parse(Hex.Decode(coinbaseHex).value).value.scriptSig, tag)
    ensures var r := Injected(h, sha256d, v6, coinbaseHex, tag, historyText, texts).value;
      Hex.Decode(r.coinbaseHex).Some? &&
      var data := Hex.Decode(r.coinbaseHex).value;
      Parse(data).Ok? &&
      var m := Parse(data).value;
      if m.IsV5()
      then |m.header| == 20 && r.txid == None && r.blockCommitments.Some?
        && Commitments(h, CoinbaseAuth(h, m), texts, historyText) == Ok(r.blockCommitments.value)
      else r.txid == Some(Hex.Encode(Reverse(sha256d(data)))) && r.blockCommitments == None
  {
    var l := Parse(Hex.Decode(coinbaseHex).value).value;
    ParseGivesFields(Hex.Decode(coinbaseHex).value, l);
    InjectedIsTagged(h, sha256d, v6, coinbaseHex, tag, historyText, texts);
    TaggedIsWellFormed(l, tag);
    TaggedReports(h, sha256d, Tagged(l, tag), historyText, texts);
  }

  lemma InjectedIsTagged(h: Hash, sha256d: Bytes -> Digest, v6: Rewrite,
                         coinbaseHex: string, tag: Bytes, historyText: string, texts: seq<string>)
    requires Injected(h, sha256d, v6, coinbaseHex, tag, historyText, texts).Ok?
    requires !IsV6(Hex.Decode(coinbaseHex).value)
    requires Parse(Hex.Decode(coinbaseHex).value).Ok?
    requires !Contains(Parse(Hex.Decode(coinbaseHex).value).value.scriptSig, tag)
    ensures var l := Parse(Hex.Decode(coinbaseHex).value).value;
      && |l.scriptSig| + |tag| <= MAX_SCRIPT_SIG_LEN
      && Injected(h, sha256d, v6, coinbaseHex, tag, historyText, texts)
         == InjectedInto(h, sha256d, Tagged(l, tag), historyText, texts)
  {
  }

  lemma TaggedReports(h: Hash, sha256d: Bytes -> Digest, m: Layout, historyText: string, texts: seq<string>)
    requires WellFormed(m) && InjectedInto(h, sha256d, m, historyText, texts).Ok?
    ensures var r := InjectedInto(h, sha256d, m, historyText, texts).value;
      && Hex.Decode(r.coinbaseHex) == Some(m.Serialize()) && Parse(m.Serialize()) == Ok(m)
      && if m.IsV5()
         then |m.header| == 20 && r.txid == None && r.blockCommitments.Some?
           && Commitments(h, CoinbaseAuth(h, m), texts, historyText) == Ok(r.blockCommitments.value)
         else r.txid == Some(Hex.Encode(Reverse(sha256d(m.Serialize())))) && r.blockCommitments == None
  {
    SerializedComesBack(m);
  }

  lemma SerializedComesBack(m: Layout)
    requires WellFormed(m)
    ensures Hex.Decode(Hex.Encode(m.Serialize())) == Some(m.Serialize()) && Parse(m.Serialize()) == Ok(m)
    ensures |m.header| >= 4 && (m.IsV5() ==> |m.header| == 20)
  {
    FieldsParse(m);
    Hex.DecodeEncode(m.Serialize());
  }

  // Injecting again returns the transaction unchanged, whatever the other
  // inputs are, and reports neither a txid nor a commitment.
  lemma InjectionIsIdempotent(h: Hash, sha256d: Bytes -> Digest, v6: Rewrite,
                              coinbaseHex: string, tag: Bytes, historyText: string, texts: seq<string>,
                              historyText': string, texts': seq<string>)
    requires Injected(h, sha256d, v6, coinbaseHex, tag, historyText, texts).Ok?
    requires !IsV6(Hex.Decode(coinbaseHex).value)
    ensures var r := Injected(h, sha256d, v6, coinbaseHex, tag, historyText, texts).value;
      Injected(h, sha256d, v6, r.coinbaseHex, tag, historyText', texts') == Ok(Injection(r.coinbaseHex, None, None))
  {
    InjectionReparses(h, sha256d, v6, coinbaseHex, tag, historyText, texts);
    var r := Injected(h, sha256d, v6, coinbaseHex, tag, historyText, texts).value;
    ParseGivesFields(Hex.Decode(r.coinbaseHex).value, Parse(Hex.Decode(r.coinbaseHex).value).value);
  }

  // Sixty-four hexadecimal characters.
  predicate IsDigestText(text: string) {
    |text| == 64 && forall c | c in text :: Hex.Nibble(c).Some?
  }

  lemma {:induction false} TxDigestsAccepted(texts: seq<string>, i: nat)
    requires i <= |texts|
    ensures ReadTxDigests(texts, i).Ok? <==> forall j | i <= j < |texts| :: IsDigestText(texts[j])
    ensures ReadTxDigests(texts, i).Ok? ==> |ReadTxDigests(texts, i).value| == |texts| - i
    decreases |texts| - i
  {
    if i < |texts| {
      Hex.DecodeSucceeds(texts[i]);
      TxDigestsAccepted(texts, i + 1);
    }
  }

  // The commitment is computed exactly when every digest is 32 bytes of
  // hexadecimal text, and the error otherwise does not depend on the coinbase.
  lemma CommitmentsAccepted(h: Hash, auth: Digest, texts: seq<string>, historyText: string)
    ensures Commitments(h, auth, texts, historyText).Ok? <==>
      IsDigestText(historyText) && forall j | 0 <= j < |texts| :: IsDigestText(texts[j])
    ensures forall other: Digest | Commitments(h, auth, texts, historyText).Err? ::
      Commitments(h, other, texts, historyText) == Commitments(h, auth, texts, historyText)
  {
    TxDigestsAccepted(texts, 0);
    Hex.DecodeSucceeds(historyText);
  }

  // What a parsed coinbase must satisfy for the tag to go in.
  ghost predicate Fits(l: Layout, tag: Bytes, historyText: string, texts: seq<string>) {
    || Contains(l.scriptSig, tag)
    || (|l.scriptSig| + |tag| <= MAX_SCRIPT_SIG_LEN &&
        (l.IsV5() ==> IsDigestText(historyText) && forall j | 0 <= j < |texts| :: IsDigestText(texts[j])))
  }

  lemma FitsExactly(h: Hash, sha256d: Bytes -> Digest, l: Layout,
                    coinbaseHex: string, tag: Bytes, historyText: string, texts: seq<string>)
    requires WellFormed(l)
    ensures InjectedParsed(h, sha256d, Ok(l), coinbaseHex, tag, historyText, texts).Ok?
       <==> Fits(l, tag, historyText, texts)
  {
    if |l.scriptSig| + |tag| <= MAX_SCRIPT_SIG_LEN {
      TaggedIsWellFormed(l, tag);
      if l.IsV5() { CommitmentsAccepted(h, CoinbaseAuth(h, Tagged(l, tag)), texts, historyText); }
    }
  }

  // Exactly which version 4 and 5 coinbases are accepted.
  lemma AcceptedExactly(h: Hash, sha256d: Bytes -> Digest, v6: Rewrite,
                        coinbaseHex: string, tag: Bytes, historyText: string, texts: seq<string>)
    requires Hex.Decode(coinbaseHex).Some? && !IsV6(Hex.Decode(coinbaseHex).value)
    ensures Injected(h, sha256d, v6, coinbaseHex, tag, historyText, texts).Ok? <==>
      exists l :: WellFormed(l) && l.Serialize() == Hex.Decode(coinbaseHex).value && Fits(l, tag, historyText, texts)
  {
    var data := Hex.Decode(coinbaseHex).value;
    forall l | WellFormed(l) && l.Serialize() == data ensures Parse(data) == Ok(l) { FieldsParse(l); }
    if Parse(data).Ok? {
      var l := Parse(data).value;
      ParseGivesFields(data, l);
      FitsExactly(h, sha256d, l, coinbaseHex, tag, historyText, texts);
    }
  }

  // ----- the pool recognises its own coinbases

  lemma {:induction false} HexOccurs(s: Bytes, part: Bytes, i: nat)
    ensures OccursAt(Hex.Encode(s), Hex.Encode(part), 2 * i) <==> OccursAt(s, part, i)
  {
    if i + |part| <= |s| {
      var before, window, after := s[..i], s[i..i + |part|], s[i + |part|..];
      assert s == before + window + after;
      Hex.EncodeConcat(before + window, after);
      Hex.EncodeConcat(before, window);
      assert Hex.Encode(s)[2 * i..2 * i + 2 * |part|] == Hex.Encode(window);
      if Hex.Encode(window) == Hex.Encode(part) { Hex.EncodeInjective(window, part); }
    }
  }

  // The test for the tag's hexadecimal text succeeds on every injected scriptSig.
  lemma TagIsRecognised(scriptSig: Bytes, tag: Bytes)
    requires Contains(scriptSig, tag)
    ensures Contains(Hex.Encode(scriptSig), Hex.Encode(tag))
  {
    var i: nat :| i <= |scriptSig| && OccursAt(scriptSig, tag, i);
    HexOccurs(scriptSig, tag, i);
  }

  // End to end: an accepted version 4 or 5 injection is recognised.
  lemma InjectionIsRecognised(h: Hash, sha256d: Bytes -> Digest, v6: Rewrite,
                              coinbaseHex: string, tag: Bytes, historyText: string, texts: seq<string>)
    requires Injected(h, sha256d, v6, coinbaseHex, tag, historyText, texts).Ok?
    requires !IsV6(Hex.Decode(coinbaseHex).value)
    ensures var r := Injected(h, sha256d, v6, coinbaseHex, tag, historyText, texts).value;
      Hex.Decode(r.coinbaseHex).Some? && Parse(Hex.Decode(r.coinbaseHex).value).Ok? &&
      Contains(Hex.Encode(Parse(Hex.Decode(r.coinbaseHex).value).value.scriptSig), Hex.Encode(tag))
  {
    InjectionReparses(h, sha256d, v6, coinbaseHex, tag, historyText, texts);
    var r := Injected(h, sha256d, v6, coinbaseHex, tag, historyText, texts).value;
    TagIsRecognised(Parse(Hex.Decode(r.coinbaseHex).value).value.scriptSig, tag);
  }

  // It succeeds on others too: exactly when the tag occurs, or its digits occur
  // half a byte out of step.
  lemma RecognisedExactly(scriptSig: Bytes, tag: Bytes)
    ensures Contains(Hex.Encode(scriptSig), Hex.Encode(tag)) <==>
      Contains(scriptSig, tag) || exists i: nat :: i % 2 == 1 && OccursAt(Hex.Encode(scriptSig), Hex.Encode(tag), i)
  {
    if Contains(scriptSig, tag) {
      TagIsRecognised(scriptSig, tag);
    } else if Contains(Hex.Encode(scriptSig), Hex.Encode(tag)) {
      var j: nat :| OccursAt(Hex.Encode(scriptSig), Hex.Encode(tag), j);
      if j % 2 == 0 { HexOccurs(scriptSig, tag, j / 2); }
    }
  }

  function OtherDigit(c: char): char { if c == '0' then '1' else '0' }

  // For every tag there is such a scriptSig, one byte longer than the tag: its
  // digits are the tag's between two others.
  lemma RecognisedOutOfStep(tag: Bytes) returns (scriptSig: Bytes)
    requires tag != []
    ensures |scriptSig| == |tag| + 1 && !Contains(scriptSig, tag)
    ensures Contains(Hex.Encode(scriptSig), Hex.Encode(tag))
  {
    var digits := Hex.Encode(tag);
    var text := [OtherDigit(digits[0])] + digits + [OtherDigit(digits[|digits| - 1])];
    Hex.EncodeGivesDigits(tag);
    Hex.EncodeDecode(text);
    scriptSig := Hex.Decode(text).value;
    assert text[1..1 + |digits|] == digits;
    assert OccursAt(text, digits, 1);
    forall i: nat | i <= |scriptSig| ensures !OccursAt(scriptSig, tag, i) {
      HexOccurs(scriptSig, tag, i);
      OnlyOutOfStep(text, digits, i);
    }
  }

  lemma OnlyOutOfStep(text: string, digits: string, i: nat)
    requires digits != "" && text == [OtherDigit(digits[0])] + digits + [OtherDigit(digits[|digits| - 1])]
    ensures !OccursAt(text, digits, 2 * i)
  {
    var n := |digits|;
    if i == 0 {
      assert text[0] != digits[0] && (n <= |text| ==> text[..n][0] == text[0]);
    } else if i == 1 {
      assert text[n + 1] != digits[n - 1] && text[2..2 + n][n - 1] == text[n + 1];
    }
  }

  // ----- what the commitment binds

  function Leaves(h: Hash, l: Layout, others: seq<Digest>): (r: seq<Digest>)
    requires |l.header| >= 12
    ensures r != [] && |r| == 1 + |others| && r[0] == CoinbaseAuth(h, l)
  {
    [CoinbaseAuth(h, l)] + others
  }

  // Everything hashed to compute one commitment.
  ghost function AllInputs(h: Hash, l: Layout, history: Digest, others: seq<Digest>): set<(Bytes, Bytes)>
    requires |l.header| >= 12
  {
    Inputs(h, Padded(Leaves(h, l, others)))
    + {CommitInput(history, Root(h, Padded(Leaves(h, l, others)))),
       AuthInput(h, l.header[8..12], l.sigLength, l.scriptSig),
       ScriptsInput(l.sigLength, l.scriptSig)}
  }

  lemma ThreeDigests(a: Digest, b: Digest, c: Digest, x: Digest, y: Digest, z: Digest)
    requires a + b + c == x + y + z
    ensures a == x && b == y
  {
    assert a == (a + b + c)[..32] && b == (a + b + c)[32..64];
    assert x == (x + y + z)[..32] && y == (x + y + z)[32..64];
  }

  lemma AuthBinds(h: Hash, l: Layout, m: Layout, inputs: set<(Bytes, Bytes)>)
    requires |l.header| >= 12 && |m.header| >= 12 && |l.sigLength| == 1 == |m.sigLength|
    requires CoinbaseAuth(h, l) == CoinbaseAuth(h, m) && CollisionFree(h, inputs)
    requires AuthInput(h, l.header[8..12], l.sigLength, l.scriptSig) in inputs
    requires ScriptsInput(l.sigLength, l.scriptSig) in inputs
    requires AuthInput(h, m.header[8..12], m.sigLength, m.scriptSig) in inputs
    requires ScriptsInput(m.sigLength, m.scriptSig) in inputs
    ensures l.header[8..12] == m.header[8..12] && l.scriptSig == m.scriptSig
  {
    var a := AuthInput(h, l.header[8..12], l.sigLength, l.scriptSig);
    var b := AuthInput(h, m.header[8..12], m.sigLength, m.scriptSig);
    assert a == b;
    var p := Ascii("ZTxAuthHash_");
    assert l.header[8..12] == (p + l.header[8..12])[|p|..] && m.header[8..12] == (p + m.header[8..12])[|p|..];
    var s, t := ScriptsInput(l.sigLength, l.scriptSig), ScriptsInput(m.sigLength, m.scriptSig);
    var sapling, orchard := h(Ascii("ZTxAuthSapliHash"), []), h(Ascii("ZTxAuthOrchaHash"), []);
    ThreeDigests(Apply(h, s), sapling, orchard, Apply(h, t), sapling, orchard);
    assert s == t;
    assert l.scriptSig == (l.sigLength + l.scriptSig)[1..] && m.scriptSig == (m.sigLength + m.scriptSig)[1..];
  }

  lemma CommitInputInjective(history: Digest, root: Digest, history': Digest, root': Digest)
    requires CommitInput(history, root) == CommitInput(history', root')
    ensures history == history' && root == root'
  {
    ThreeDigests(history, root, Zero(), history', root', Zero());
  }

  // The inputs include everything hashed to compute one commitment.
  ghost predicate Covers(inputs: set<(Bytes, Bytes)>, h: Hash, l: Layout, history: Digest, others: seq<Digest>)
    requires |l.header| >= 12
  {
    && Inputs(h, Padded(Leaves(h, l, others))) <= inputs
    && CommitInput(history, Root(h, Padded(Leaves(h, l, others)))) in inputs
    && AuthInput(h, l.header[8..12], l.sigLength, l.scriptSig) in inputs
    && ScriptsInput(l.sigLength, l.scriptSig) in inputs
  }

  lemma PaddedShape(leaves: seq<Digest>)
    requires leaves != []
    ensures |Padded(leaves)| == NextPowerOfTwo(|leaves|) == Exp(2, Log2(|leaves|)) > 0
    ensures Padded(leaves)[0] == leaves[0]
  {
    NextPowerIsPower(|leaves|);
  }

  lemma LeafIsNoNode(h: Hash, branch: Bytes, sigLength: Bytes, scriptSig: Bytes)
    ensures AuthInput(h, branch, sigLength, scriptSig).0 != Ascii("ZcashAuthDatHash")
  {
    var p, q := AuthInput(h, branch, sigLength, scriptSig).0, Ascii("ZcashAuthDatHash");
    assert p[1] == Ascii("ZTxAuthHash_")[1] == 'T' as int && q[1] == 'c' as int;
  }

  // The tree of the digests, with the coinbase leaf first.
  lemma CoinbaseTree(h: Hash, l: Layout, history: Digest, others: seq<Digest>, inputs: set<(Bytes, Bytes)>)
    returns (tree: seq<Digest>, depth: nat, p: (Bytes, Bytes))
    requires |l.header| >= 12 && Covers(inputs, h, l, history, others)
    ensures tree != [] && tree == Padded(Leaves(h, l, others))
    ensures Exp(2, depth) == NextPowerOfTwo(1 + |others|)
    ensures p == AuthInput(h, l.header[8..12], l.sigLength, l.scriptSig) && Apply(h, p) == CoinbaseAuth(h, l)
    ensures Hashed(h, tree, depth, p, inputs)
    ensures CommitInput(history, Root(h, tree)) in inputs
    ensures Commitment(h, history, Leaves(h, l, others)) == Apply(h, CommitInput(history, Root(h, tree)))
  {
    PaddedShape(Leaves(h, l, others));
    LeafIsNoNode(h, l.header[8..12], l.sigLength, l.scriptSig);
    tree, depth := Padded(Leaves(h, l, others)), Log2(1 + |others|);
    p := AuthInput(h, l.header[8..12], l.sigLength, l.scriptSig);
  }

  // Equal commitments to two trees are to one history root, trees of one size,
  // and so the same leaves.
  lemma TreesBind(h: Hash, history: Digest, a: seq<Digest>, j: nat, p: (Bytes, Bytes),
                  history': Digest, b: seq<Digest>, k: nat, q: (Bytes, Bytes), inputs: set<(Bytes, Bytes)>)
    requires Hashed(h, a, j, p, inputs) && Hashed(h, b, k, q, inputs) && CollisionFree(h, inputs)
    requires CommitInput(history, Root(h, a)) in inputs && CommitInput(history', Root(h, b)) in inputs
    requires Apply(h, CommitInput(history, Root(h, a))) == Apply(h, CommitInput(history', Root(h, b)))
    ensures history == history' && a == b && j == k && Apply(h, p) == Apply(h, q)
  {
    CommitInputInjective(history, Root(h, a), history', Root(h, b));
    FirstLeafFixesDepth(h, a, b, j, k, p, q, inputs);
    RootBinds(h, a, b, inputs);
  }

  // Without a collision among the inputs actually hashed, equal commitments
  // come from the same history root, branch id, scriptSig and (padded)
  // transaction digests, however many transactions the two blocks have.
  lemma CommitmentBinds(h: Hash, l: Layout, m: Layout, historyL: Digest, historyM: Digest,
                        othersL: seq<Digest>, othersM: seq<Digest>, inputs: set<(Bytes, Bytes)>)
    requires |l.header| >= 12 && |m.header| >= 12 && |l.sigLength| == 1 == |m.sigLength|
    requires Covers(inputs, h, l, historyL, othersL) && Covers(inputs, h, m, historyM, othersM)
    requires CollisionFree(h, inputs)
    requires Commitment(h, historyL, Leaves(h, l, othersL)) == Commitment(h, historyM, Leaves(h, m, othersM))
    ensures historyL == historyM && l.header[8..12] == m.header[8..12] && l.scriptSig == m.scriptSig
    ensures Padded(Leaves(h, l, othersL)) == Padded(Leaves(h, m, othersM))
    ensures NextPowerOfTwo(1 + |othersL|) == NextPowerOfTwo(1 + |othersM|)
  {
    var a, j, p := CoinbaseTree(h, l, historyL, othersL, inputs);
    var b, k, q := CoinbaseTree(h, m, historyM, othersM, inputs);
    TreesBind(h, historyL, a, j, p, historyM, b, k, q, inputs);
    AuthBinds(h, l, m, inputs);
  }

  lemma ReportedParts(h: Hash, l: Layout, texts: seq<string>, historyText: string)
    returns (history: Digest, others: seq<Digest>)
    requires |l.header| >= 12 && Commitments(h, CoinbaseAuth(h, l), texts, historyText).Ok?
    ensures ReadHistory(historyText) == Ok(history) && ReadTxDigests(texts, 0) == Ok(others) && |others| == |texts|
    ensures Commitments(h, CoinbaseAuth(h, l), texts, historyText)
         == Ok(Hex.Encode(Reverse(Commitment(h, history, Leaves(h, l, others)))))
  {
    TxDigestsAccepted(texts, 0);
    history, others := ReadHistory(historyText).value, ReadTxDigests(texts, 0).value;
  }

  lemma SameReport(a: Digest, b: Digest)
    requires Hex.Encode(Reverse(a)) == Hex.Encode(Reverse(b))
    ensures a == b
  {
    Hex.EncodeInjective(Reverse(a), Reverse(b));
    ReverseInjective(a, b);
  }

  lemma ReverseInjective(a: Bytes, b: Bytes)
    requires Reverse(a) == Reverse(b)
    ensures a == b
  {
    forall i | 0 <= i < |a| ensures a[i] == b[i] {
      assert Reverse(a)[|a| - 1 - i] == a[i] && Reverse(b)[|b| - 1 - i] == b[i];
    }
  }

  // ----- end to end

  // What one call of the injection is given.
  datatype Request = Request(coinbaseHex: string, tag: Bytes, historyText: string, texts: seq<string>)

  function Answer(h: Hash, sha256d: Bytes -> Digest, v6: Rewrite, q: Request): Result<Injection, Error> {
    Injected(h, sha256d, v6, q.coinbaseHex, q.tag, q.historyText, q.texts)
  }

  // A version 4 or 5 coinbase that was accepted and did get the tag.
  ghost predicate Rewritten(h: Hash, sha256d: Bytes -> Digest, v6: Rewrite, q: Request) {
    && Answer(h, sha256d, v6, q).Ok?
    && var data := Hex.Decode(q.coinbaseHex).value;
       !IsV6(data) && Parse(data).Ok? && !Contains(Parse(data).value.scriptSig, q.tag)
  }

  // The fields of the returned transaction.
  ghost function Returned(h: Hash, sha256d: Bytes -> Digest, v6: Rewrite, q: Request): (m: Layout)
    requires Rewritten(h, sha256d, v6, q)
    ensures WellFormed(m) && |m.sigLength| == 1
    ensures var r := Answer(h, sha256d, v6, q).value;
      Hex.Decode(r.coinbaseHex) == Some(m.Serialize()) && Parse(m.Serialize()) == Ok(m)
    ensures var r := Answer(h, sha256d, v6, q).value;
      r.blockCommitments.Some? ==>
        |m.header| == 20 && Commitments(h, CoinbaseAuth(h, m), q.texts, q.historyText) == Ok(r.blockCommitments.value)
  {
    var data := Hex.Decode(q.coinbaseHex).value;
    var l := Parse(data).value;
    ParseGivesFields(data, l);
    InjectedIsTagged(h, sha256d, v6, q.coinbaseHex, q.tag, q.historyText, q.texts);
    TaggedIsWellFormed(l, q.tag);
    TaggedReports(h, sha256d, Tagged(l, q.tag), q.historyText, q.texts);
    Tagged(l, q.tag)
  }

  // Everything hashed for the commitment reported with the answer.
  ghost function InputsOf(h: Hash, sha256d: Bytes -> Digest, v6: Rewrite, q: Request): set<(Bytes, Bytes)>
    requires Rewritten(h, sha256d, v6, q) && Answer(h, sha256d, v6, q).value.blockCommitments.Some?
  {
    var m := Returned(h, sha256d, v6, q);
    ReportedTexts(h, m, q.texts, q.historyText);
    AllInputs(h, m, ReadHistory(q.historyText).value, ReadTxDigests(q.texts, 0).value)
  }

  lemma ReportedTexts(h: Hash, m: Layout, texts: seq<string>, historyText: string)
    requires |m.header| >= 12 && Commitments(h, CoinbaseAuth(h, m), texts, historyText).Ok?
    ensures ReadHistory(historyText).Ok? && ReadTxDigests(texts, 0).Ok?
  {
    var history, others := ReportedParts(h, m, texts, historyText);
  }

  // Two injections that report one hashBlockCommitments returned transactions
  // with one scriptSig and branch id, for one history root, unless two of the
  // inputs hashed for the two answers collide.
  lemma ReportedCommitmentBinds(h: Hash, sha256d: Bytes -> Digest, v6: Rewrite, q: Request, r: Request)
    requires Rewritten(h, sha256d, v6, q) && Rewritten(h, sha256d, v6, r)
    requires Answer(h, sha256d, v6, q).value.blockCommitments.Some?
    requires Answer(h, sha256d, v6, q).value.blockCommitments == Answer(h, sha256d, v6, r).value.blockCommitments
    requires CollisionFree(h, InputsOf(h, sha256d, v6, q) + InputsOf(h, sha256d, v6, r))
    ensures var (l, m) := (Returned(h, sha256d, v6, q), Returned(h, sha256d, v6, r));
      l.scriptSig == m.scriptSig && l.header[8..12] == m.header[8..12]
    ensures ReadHistory(q.historyText) == ReadHistory(r.historyText)
    ensures NextPowerOfTwo(1 + |q.texts|) == NextPowerOfTwo(1 + |r.texts|)
  {
    var l, m := Returned(h, sha256d, v6, q), Returned(h, sha256d, v6, r);
    LayoutsBind(h, l, m, q, r, InputsOf(h, sha256d, v6, q) + InputsOf(h, sha256d, v6, r));
  }

  lemma LayoutsBind(h: Hash, l: Layout, m: Layout, q: Request, r: Request, inputs: set<(Bytes, Bytes)>)
    requires |l.header| >= 12 && |m.header| >= 12 && |l.sigLength| == 1 == |m.sigLength| && CollisionFree(h, inputs)
    requires Commitments(h, CoinbaseAuth(h, l), q.texts, q.historyText).Ok?
    requires Commitments(h, CoinbaseAuth(h, l), q.texts, q.historyText)
          == Commitments(h, CoinbaseAuth(h, m), r.texts, r.historyText)
    requires ReadHistory(q.historyText).Ok? && ReadTxDigests(q.texts, 0).Ok?
    requires ReadHistory(r.historyText).Ok? && ReadTxDigests(r.texts, 0).Ok?
    requires Covers(inputs, h, l, ReadHistory(q.historyText).value, ReadTxDigests(q.texts, 0).value)
    requires Covers(inputs, h, m, ReadHistory(r.historyText).value, ReadTxDigests(r.texts, 0).value)
    ensures l.scriptSig == m.scriptSig && l.header[8..12] == m.header[8..12]
    ensures ReadHistory(q.historyText) == ReadHistory(r.historyText)
    ensures NextPowerOfTwo(1 + |q.texts|) == NextPowerOfTwo(1 + |r.texts|)
  {
    var hl, ol := ReportedParts(h, l, q.texts, q.historyText);
    var hm, om := ReportedParts(h, m, r.texts, r.historyText);
    SameReport(Commitment(h, hl, Leaves(h, l, ol)), Commitment(h, hm, Leaves(h, m, om)));
    CommitmentBinds(h, l, m, hl, hm, ol, om, inputs);
  }
}
