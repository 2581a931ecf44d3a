// The bytes that are hashed for a block commitment, spelled out, and what the
// injection returns for a version 6 transaction.

module CoinbaseBytes {
  import opened Common
  import opened AuthMerkle
  import opened Coinbase
  import opened CoinbaseFacts
  import Hex
  import CompactSize

  // ----- the personalizations

  const COMMIT: Bytes :=
    [0x5A, 0x63, 0x61, 0x73, 0x68, 0x42, 0x6C, 0x6F, 0x63, 0x6B, 0x43, 0x6F, 0x6D, 0x6D, 0x69, 0x74]
  const NODE: Bytes :=
    [0x5A, 0x63, 0x61, 0x73, 0x68, 0x41, 0x75, 0x74, 0x68, 0x44, 0x61, 0x74, 0x48, 0x61, 0x73, 0x68]
  const AUTH: Bytes := [0x5A, 0x54, 0x78, 0x41, 0x75, 0x74, 0x68, 0x48, 0x61, 0x73, 0x68, 0x5F]
  const SCRIPTS: Bytes :=
    [0x5A, 0x54, 0x78, 0x41, 0x75, 0x74, 0x68, 0x54, 0x72, 0x61, 0x6E, 0x73, 0x48, 0x61, 0x73, 0x68]
  const SAPLING: Bytes :=
    [0x5A, 0x54, 0x78, 0x41, 0x75, 0x74, 0x68, 0x53, 0x61, 0x70, 0x6C, 0x69, 0x48, 0x61, 0x73, 0x68]
  const ORCHARD: Bytes :=
    [0x5A, 0x54, 0x78, 0x41, 0x75, 0x74, 0x68, 0x4F, 0x72, 0x63, 0x68, 0x61, 0x48, 0x61, 0x73, 0x68]

  lemma CommitLetters() ensures Ascii("ZcashBlockCommit") == COMMIT { }
  lemma NodeLetters() ensures Ascii("ZcashAuthDatHash") == NODE { }
  lemma AuthLetters() ensures Ascii("ZTxAuthHash_") == AUTH { }
  lemma ScriptsLetters() ensures Ascii("ZTxAuthTransHash") == SCRIPTS { }
  lemma SaplingLetters() ensures Ascii("ZTxAuthSapliHash") == SAPLING { }
  lemma OrchardLetters() ensures Ascii("ZTxAuthOrchaHash") == ORCHARD { }

  ghost predicate IsReversed(a: Bytes, b: Bytes) {
    |a| == |b| && forall i | 0 <= i < |a| :: a[i] == b[|a| - 1 - i]
  }

  // The text is 32 bytes in hexadecimal, the digest's from last to first.
  ghost predicate Spells(text: string, digest: Bytes) {
    |digest| == 32 && Hex.Decode(text).Some? && IsReversed(Hex.Decode(text).value, digest)
  }

  // ----- the tree

  // A single leaf is the root; any other root is the hash of the roots of the
  // two halves, left before right.
  lemma RootBytes(h: Hash, leaves: seq<Digest>)
    requires leaves != []
    ensures |leaves| == 1 ==> Root(h, leaves) == leaves[0]
    ensures |leaves| >= 2 ==>
      var half := |leaves| / 2;
      var data := Root(h, leaves[..half]) + Root(h, leaves[half..]);
      |data| == 64 && Root(h, leaves) == h(NODE, data)
  {
    NodeLetters();
  }

  // Behind the leaves stand zero bytes only.
  lemma PaddedBytes(leaves: seq<Digest>, i: nat, k: nat)
    requires leaves != [] && i < |Padded(leaves)| && k < 32
    ensures leaves <= Padded(leaves)
    ensures i >= |leaves| ==> Padded(leaves)[i][k] == 0
  {
    NextPowerIsPower(|leaves|);
  }

  lemma TwoLeafRoot(h: Hash, a: Digest, b: Digest)
    ensures Root(h, Padded([a])) == a
    ensures Root(h, Padded([a, b])) == h(NODE, a + b)
  {
    NodeLetters();
    NextPowerIsPower(2);
    assert NextPowerOfTwo(1) == 1 && NextPowerOfTwo(2) == 2;
    assert Padded([a]) == [a] && Padded([a, b]) == [a, b];
    assert [a, b][..1] == [a] && [a, b][1..] == [b];
  }

  // ----- the digest of the coinbase

  lemma AuthBytes(h: Hash, branch: Bytes, sigLength: Bytes, scriptSig: Bytes)
    ensures var data := h(SCRIPTS, sigLength + scriptSig) + h(SAPLING, []) + h(ORCHARD, []);
      |data| == 96 && Apply(h, AuthInput(h, branch, sigLength, scriptSig)) == h(AUTH + branch, data)
  {
    AuthLetters();
    ScriptsLetters();
    SaplingLetters();
    OrchardLetters();
  }

  // ----- the commitment

  lemma ReadsReversed(text: string, digest: Digest)
    requires ReadDigest(text) == Read(digest)
    ensures Spells(text, digest)
  {
  }

  // The digest leaf of each text is its bytes from last to first.
  lemma {:induction false} LeavesAreSpelled(texts: seq<string>, i: nat, k: nat)
    requires i <= k < |texts| && ReadTxDigests(texts, i).Ok?
    ensures |ReadTxDigests(texts, i).value| == |texts| - i && Spells(texts[k], ReadTxDigests(texts, i).value[k - i])
    decreases |texts| - i
  {
    TxDigestsAccepted(texts, i);
    if i < k {
      LeavesAreSpelled(texts, i + 1, k);
    } else {
      ReadsReversed(texts[i], ReadTxDigest(texts, i).value);
    }
  }

  // The leaves of a block: the coinbase digest, then the digests of the texts.
  ghost predicate AreLeaves(leaves: seq<Digest>, auth: Digest, texts: seq<string>) {
    |leaves| == 1 + |texts| && leaves[0] == auth && forall k | 0 <= k < |texts| :: Spells(texts[k], leaves[1 + k])
  }

  // A reported commitment is the hash of 96 bytes: the history root, the root of
  // the padded leaves, and zeros.
  lemma CommitmentBytes(h: Hash, auth: Digest, texts: seq<string>, historyText: string, report: string)
    returns (leaves: seq<Digest>, data: Bytes)
    requires Commitments(h, auth, texts, historyText) == Ok(report)
    ensures AreLeaves(leaves, auth, texts)
    ensures |data| == 96 && Spells(historyText, data[..32]) && data[32..64] == Root(h, Padded(leaves))
    ensures forall i | 64 <= i < 96 :: data[i] == 0
    ensures Spells(report, h(COMMIT, data))
  {
    TxDigestsAccepted(texts, 0);
    var history, digests := ReadHistory(historyText).value, ReadTxDigests(texts, 0).value;
    leaves := [auth] + digests;
    forall k | 0 <= k < |texts| ensures Spells(texts[k], leaves[1 + k]) { LeavesAreSpelled(texts, 0, k); }
    var root: Digest := Root(h, Padded(leaves));
    data := CommitInput(history, root).1;
    ThreeParts(history, root, Zero());
    ReadsReversed(historyText, history);
    CommitLetters();
    Hex.DecodeEncode(Reverse(h(COMMIT, data)));
  }

  lemma ThreeParts(a: Digest, b: Digest, c: Digest)
    ensures (a + b + c)[..32] == a && (a + b + c)[32..64] == b && (a + b + c)[64..] == c
  {
  }

  // ----- which digest text is refused

  // What is wrong with one text.
  function TextError(text: string, notHex: Error, wrongLength: nat -> Error): Error {
    match Hex.Decode(text)
    case None => notHex
    case Some(bytes) => wrongLength(|bytes|)
  }

  // The first bad text decides; the history text comes last.
  lemma FirstBadText(h: Hash, auth: Digest, texts: seq<string>, historyText: string, i: nat)
    requires i <= |texts| && forall j | 0 <= j < i :: IsDigestText(texts[j])
    requires i < |texts| ==> !IsDigestText(texts[i])
    requires i == |texts| ==> !IsDigestText(historyText)
    ensures Commitments(h, auth, texts, historyText) == Err(
      if i < |texts| then TextError(texts[i], DigestHex(i), (n: nat) => DigestLength(i, n))
      else TextError(historyText, HistoryHex, (n: nat) => HistoryLength(n)))
  {
    Hex.DecodeSucceeds(historyText);
    BadTextFrom(texts, 0, i);
    TxDigestsAccepted(texts, 0);
  }

  lemma {:induction false} BadTextFrom(texts: seq<string>, from: nat, i: nat)
    requires from <= i <= |texts| && forall j | from <= j < i :: IsDigestText(texts[j])
    requires i < |texts| ==> !IsDigestText(texts[i])
    ensures i < |texts| ==>
      ReadTxDigests(texts, from) == Err(TextError(texts[i], DigestHex(i), (n: nat) => DigestLength(i, n)))
    decreases i - from
  {
    if i < |texts| {
      Hex.DecodeSucceeds(texts[from]);
      if from < i { BadTextFrom(texts, from + 1, i); }
    }
  }

  // ----- version 6

  // The bytes of a version 6 transaction start 06 00 00 80.
  predicate StartsAsV6(data: Bytes) {
    |data| >= 4 && data[0] == 6 && data[1] == 0 && data[2] == 0 && data[3] == 0x80
  }

  // Everything is left to the library: its error comes first, then those of the
  // texts, and otherwise its bytes are returned with the commitment of its digest.
  lemma V6Injection(h: Hash, sha256d: Bytes -> Digest, v6: Rewrite,
                    coinbaseHex: string, tag: Bytes, historyText: string, texts: seq<string>)
    requires Hex.Decode(coinbaseHex).Some? && StartsAsV6(Hex.Decode(coinbaseHex).value)
    ensures var lib := v6(Hex.Decode(coinbaseHex).value, tag);
      var answer := Injected(h, sha256d, v6, coinbaseHex, tag, historyText, texts);
      match lib
      case Err(message) => answer == Err(Library(message))
      case Ok((bytes, auth)) =>
        && (answer.Ok? <==> IsDigestText(historyText) && forall j | 0 <= j < |texts| :: IsDigestText(texts[j]))
        && (answer.Err? ==> Commitments(h, auth, texts, historyText) == Err(answer.error))
        && (answer.Ok? ==>
             && Hex.Decode(answer.value.coinbaseHex) == Some(bytes)
             && answer.value.txid == None && answer.value.blockCommitments.Some?
             && Commitments(h, auth, texts, historyText) == Ok(answer.value.blockCommitments.value))
  {
    var data := Hex.Decode(coinbaseHex).value;
    assert data[..4] == V6;
    var lib := v6(data, tag);
    if lib.Ok? {
      CommitmentsAccepted(h, lib.value.1, texts, historyText);
      Hex.DecodeEncode(lib.value.0);
    }
  }

  // The commitment of an accepted version 6 answer, byte for byte: its first leaf
  // is the library's digest.
  lemma V6Commitment(h: Hash, sha256d: Bytes -> Digest, v6: Rewrite, q: Request)
    returns (leaves: seq<Digest>, data: Bytes)
    requires Hex.Decode(q.coinbaseHex).Some? && StartsAsV6(Hex.Decode(q.coinbaseHex).value)
    requires Answer(h, sha256d, v6, q).Ok?
    ensures v6(Hex.Decode(q.coinbaseHex).value, q.tag).Ok?
    ensures AreLeaves(leaves, v6(Hex.Decode(q.coinbaseHex).value, q.tag).value.1, q.texts)
    ensures IsCommitted(h, q.historyText, leaves, data, Answer(h, sha256d, v6, q).value.blockCommitments)
  {
    V6Injection(h, sha256d, v6, q.coinbaseHex, q.tag, q.historyText, q.texts);
    var auth := v6(Hex.Decode(q.coinbaseHex).value, q.tag).value.1;
    leaves, data := CommitmentBytes(h, auth, q.texts, q.historyText,
                                    Answer(h, sha256d, v6, q).value.blockCommitments.value);
  }

  // The report is the hash of these 96 bytes, read from last to first.
  ghost predicate IsCommitted(h: Hash, historyText: string, leaves: seq<Digest>, data: Bytes, report: Option<string>) {
    && leaves != [] && |data| == 96
    && Spells(historyText, data[..32]) && data[32..64] == Root(h, Padded(leaves))
    && (forall i | 64 <= i < 96 :: data[i] == 0)
    && report.Some? && Spells(report.value, h(COMMIT, data))
  }

  // ----- versions 4 and 5

  // What was parsed stands in the bytes in this order, behind a header of 20
  // bytes for version 5 and 8 for version 4.
  lemma ParsedBytes(data: Bytes, l: Layout)
    requires Parse(data) == Ok(l)
    ensures data == l.header + l.count + l.prevout + l.sigLength + l.scriptSig + l.rest
    ensures |l.header| >= 8 && |l.prevout| == 36 && 1 <= |l.count| <= 9 && 1 <= |l.sigLength| <= 9
    ensures data[1] == 0 && data[2] == 0 && data[3] == 0x80
    ensures if l.IsV5() then data[0] == 5 && |l.header| == 20 else data[0] == 4 && |l.header| == 8
  {
    ParseGivesFields(data, l);
    ReadOwnBytes(l.count, 0);
    ReadOwnBytes(l.sigLength, 0);
    assert data[..4] == l.header[..4];
    assert data[..4][0] == data[0] && data[..4][1] == data[1] && data[..4][2] == data[2] && data[..4][3] == data[3];
  }

  // An accepted tag changes the length byte and extends the scriptSig, nothing else.
  ghost predicate CarriesTag(l: Layout, tag: Bytes, returned: string) {
    var n := |l.scriptSig| + |tag|;
    n <= 100 && Hex.Decode(returned) == Some(l.header + l.count + l.prevout + [n] + (l.scriptSig + tag) + l.rest)
  }

  // Version 4 reports the txid of the returned bytes, version 5 a commitment.
  ghost predicate ReportsFor(l: Layout, sha256d: Bytes -> Digest, r: Injection) {
    if l.IsV5() then r.txid == None && r.blockCommitments.Some?
    else
      && r.blockCommitments == None && r.txid.Some? && Hex.Decode(r.coinbaseHex).Some?
      && Spells(r.txid.value, sha256d(Hex.Decode(r.coinbaseHex).value))
  }

  lemma InjectedBytes(h: Hash, sha256d: Bytes -> Digest, v6: Rewrite, q: Request)
    requires Rewritten(h, sha256d, v6, q)
    ensures var l := Parse(Hex.Decode(q.coinbaseHex).value).value; var r := Answer(h, sha256d, v6, q).value;
      CarriesTag(l, q.tag, r.coinbaseHex) && ReportsFor(l, sha256d, r)
  {
    TaggedAnswer(h, sha256d, v6, q);
    LayoutBytes(h, sha256d, Parse(Hex.Decode(q.coinbaseHex).value).value, q.tag, q.historyText, q.texts);
  }

  lemma LayoutBytes(h: Hash, sha256d: Bytes -> Digest, l: Layout, tag: Bytes, historyText: string, texts: seq<string>)
    requires |l.scriptSig| + |tag| <= 100 && WellFormed(Tagged(l, tag)) && Tagged(l, tag).IsV5() == l.IsV5()
    requires InjectedInto(h, sha256d, Tagged(l, tag), historyText, texts).Ok?
    ensures var r := InjectedInto(h, sha256d, Tagged(l, tag), historyText, texts).value;
      CarriesTag(l, tag, r.coinbaseHex) && ReportsFor(l, sha256d, r)
  {
    TaggedSerialized(l, tag);
    AnswerBytes(h, sha256d, Tagged(l, tag), historyText, texts);
  }

  lemma TaggedAnswer(h: Hash, sha256d: Bytes -> Digest, v6: Rewrite, q: Request)
    requires Rewritten(h, sha256d, v6, q)
    ensures var l := Parse(Hex.Decode(q.coinbaseHex).value).value;
      && WellFormed(l) && Hex.Decode(q.coinbaseHex).value == l.Serialize() && |l.scriptSig| + |q.tag| <= 100
      && WellFormed(Tagged(l, q.tag)) && Tagged(l, q.tag).IsV5() == l.IsV5()
      && Answer(h, sha256d, v6, q) == InjectedInto(h, sha256d, Tagged(l, q.tag), q.historyText, q.texts)
  {
    var data := Hex.Decode(q.coinbaseHex).value;
    ParseGivesFields(data, Parse(data).value);
    InjectedIsTagged(h, sha256d, v6, q.coinbaseHex, q.tag, q.historyText, q.texts);
    TaggedIsWellFormed(Parse(data).value, q.tag);
  }

  lemma TaggedSerialized(l: Layout, tag: Bytes)
    requires |l.scriptSig| + |tag| <= 100
    ensures Tagged(l, tag).Serialize()
         == l.header + l.count + l.prevout + [|l.scriptSig| + |tag|] + (l.scriptSig + tag) + l.rest
  {
  }

  lemma AnswerBytes(h: Hash, sha256d: Bytes -> Digest, m: Layout, historyText: string, texts: seq<string>)
    requires WellFormed(m) && InjectedInto(h, sha256d, m, historyText, texts).Ok?
    ensures var r := InjectedInto(h, sha256d, m, historyText, texts).value;
      && Hex.Decode(r.coinbaseHex) == Some(m.Serialize())
      && ReportsFor(m, sha256d, r)
  {
    TaggedReports(h, sha256d, m, historyText, texts);
    Hex.DecodeEncode(Reverse(sha256d(m.Serialize())));
  }

  // The commitment of an accepted version 5 answer, byte for byte: its first leaf
  // hashes the branch id of the coinbase and the new scriptSig behind its length.
  lemma V5Commitment(h: Hash, sha256d: Bytes -> Digest, v6: Rewrite, q: Request)
    returns (leaves: seq<Digest>, data: Bytes)
    requires Rewritten(h, sha256d, v6, q) && Answer(h, sha256d, v6, q).value.blockCommitments.Some?
    ensures IsCommitted(h, q.historyText, leaves, data, Answer(h, sha256d, v6, q).value.blockCommitments)
    ensures var coinbase := Hex.Decode(q.coinbaseHex).value;
      var scriptSig := Parse(coinbase).value.scriptSig + q.tag;
      && |coinbase| >= 12 && |scriptSig| <= 100
      && var auth := h(AUTH + coinbase[8..12], h(SCRIPTS, [|scriptSig|] + scriptSig) + h(SAPLING, []) + h(ORCHARD, []));
         AreLeaves(leaves, auth, q.texts)
  {
    var coinbase := Hex.Decode(q.coinbaseHex).value;
    var l := Parse(coinbase).value;
    TaggedAnswer(h, sha256d, v6, q);
    AnswerCommits(h, sha256d, Tagged(l, q.tag), q.historyText, q.texts);
    BranchId(l);
    TaggedAuth(h, l, q.tag);
    leaves, data := CommitmentBytes(h, CoinbaseAuth(h, Tagged(l, q.tag)), q.texts, q.historyText,
                                    Answer(h, sha256d, v6, q).value.blockCommitments.value);
  }

  lemma AnswerCommits(h: Hash, sha256d: Bytes -> Digest, m: Layout, historyText: string, texts: seq<string>)
    requires WellFormed(m) && InjectedInto(h, sha256d, m, historyText, texts).Ok?
    requires InjectedInto(h, sha256d, m, historyText, texts).value.blockCommitments.Some?
    ensures m.IsV5() && |m.header| == 20
    ensures Commitments(h, CoinbaseAuth(h, m), texts, historyText)
         == Ok(InjectedInto(h, sha256d, m, historyText, texts).value.blockCommitments.value)
  {
    TaggedReports(h, sha256d, m, historyText, texts);
  }

  lemma BranchId(l: Layout)
    requires |l.header| >= 12
    ensures |l.Serialize()| >= 12 && l.Serialize()[8..12] == l.header[8..12]
  {
    assert l.Serialize()[..|l.header|] == l.header;
  }

  lemma TaggedAuth(h: Hash, l: Layout, tag: Bytes)
    requires |l.header| >= 12 && |l.scriptSig| + |tag| <= 100
    ensures var scriptSig := l.scriptSig + tag;
      var data := h(SCRIPTS, [|scriptSig|] + scriptSig) + h(SAPLING, []) + h(ORCHARD, []);
      |data| == 96 && CoinbaseAuth(h, Tagged(l, tag)) == h(AUTH + l.header[8..12], data)
  {
    var m := Tagged(l, tag);
    AuthBytes(h, m.header[8..12], m.sigLength, m.scriptSig);
  }

  // ----- what is refused

  // Text that is no hexadecimal, bytes without a version, and versions other than
  // 4, 5 and 6.
  lemma RefusedVersion(h: Hash, sha256d: Bytes -> Digest, v6: Rewrite, q: Request)
    ensures Hex.Decode(q.coinbaseHex) == None ==> Answer(h, sha256d, v6, q) == Err(CoinbaseHex)
    ensures Hex.Decode(q.coinbaseHex).Some? ==> var data := Hex.Decode(q.coinbaseHex).value;
      && (|data| < 4 ==> Answer(h, sha256d, v6, q) == Err(TooShort))
      && (|data| >= 4 && !(4 <= data[0] <= 6 && data[1..4] == [0, 0, 0x80]) ==>
           Answer(h, sha256d, v6, q) == Err(UnknownVersion(data[..4])))
  {
    if Hex.Decode(q.coinbaseHex).Some? && |Hex.Decode(q.coinbaseHex).value| >= 4 {
      Version(Hex.Decode(q.coinbaseHex).value);
    }
  }

  lemma Version(data: Bytes)
    requires |data| >= 4
    ensures data[1..4] == [0, 0, 0x80] && data[0] == 6 <==> data[..4] == V6
    ensures data[1..4] == [0, 0, 0x80] && data[0] == 5 <==> data[..4] == V5
    ensures data[1..4] == [0, 0, 0x80] && data[0] == 4 <==> data[..4] == V4
  {
    assert data[..4] == [data[0]] + data[1..4];
  }

  lemma CommitmentErrors(h: Hash, auth: Digest, texts: seq<string>, historyText: string)
    ensures Commitments(h, auth, texts, historyText).Err? ==> var e := Commitments(h, auth, texts, historyText).error;
      e.DigestHex? || e.DigestLength? || e.HistoryHex? || e.HistoryLength?
  {
    DigestErrors(texts, 0);
  }

  lemma {:induction false} DigestErrors(texts: seq<string>, i: nat)
    requires i <= |texts|
    ensures ReadTxDigests(texts, i).Err? ==>
      ReadTxDigests(texts, i).error.DigestHex? || ReadTxDigests(texts, i).error.DigestLength?
    decreases |texts| - i
  {
    if i < |texts| { DigestErrors(texts, i + 1); }
  }

  // Where the bytes of a version 4 or 5 transaction break off, or do not fit: in
  // the header, at the input count, in the 36 bytes of the prevout, or in the
  // scriptSig.
  lemma RefusedParse(data: Bytes, h: nat)
    requires |data| >= 4 && data[1..4] == [0, 0, 0x80]
    requires (data[0] == 5 && h == 20) || (data[0] == 4 && h == 8)
    ensures |data| <= h ==> Parse(data) == Err(ShortHeader)
    ensures |data| > h ==>
      match CompactSize.Read(data, h)
      case Err(e) => Parse(data) == Err(Size(e))
      case Ok((count, width)) =>
        var at := h + width + 36;
        && (count != 1 ==> Parse(data) == Err(InputCount(count)))
        && (count == 1 && |data| <= at ==> Parse(data) == Err(ShortPrevout))
        && (count == 1 && |data| > at ==>
             match CompactSize.Read(data, at)
             case Err(e) => Parse(data) == Err(Size(e))
             case Ok((length, sigWidth)) =>
               if |data| < at + sigWidth + length then Parse(data) == Err(ShortScriptSig) else Parse(data).Ok?)
  {
    Version(data);
  }

  // A tag that does not occur yet and makes the scriptSig longer than 100 bytes.
  lemma RefusedLength(h: Hash, sha256d: Bytes -> Digest, v6: Rewrite, q: Request, l: Layout)
    requires Hex.Decode(q.coinbaseHex).Some? && !IsV6(Hex.Decode(q.coinbaseHex).value)
    requires Parse(Hex.Decode(q.coinbaseHex).value) == Ok(l) && !Contains(l.scriptSig, q.tag)
    ensures Answer(h, sha256d, v6, q) == Err(ScriptSigTooLong(|l.scriptSig| + |q.tag|))
       <==> |l.scriptSig| + |q.tag| > 100
  {
    if |l.scriptSig| + |q.tag| <= 100 && l.IsV5() && |l.header| >= 12 {
      CommitmentErrors(h, CoinbaseAuth(h, Tagged(l, q.tag)), q.texts, q.historyText);
    }
  }
}
