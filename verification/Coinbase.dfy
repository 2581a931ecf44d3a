// Appending the pool's tag to a coinbase transaction and recomputing the block
// commitment: crates/pool-core/src/coinbase.rs.  The hashes are parameters, and
// so is the version 6 rewrite done by an external library.

module Coinbase {
  import opened Common
  import opened AuthMerkle
  import Hex
  import CompactSize

  const MAX_SCRIPT_SIG_LEN := 100

  const V6: Bytes := [0x06, 0x00, 0x00, 0x80]
  const V5: Bytes := [0x05, 0x00, 0x00, 0x80]
  const V4: Bytes := [0x04, 0x00, 0x00, 0x80]

  datatype Error =
    | CoinbaseHex
    | TooShort
    | UnknownVersion(version: Bytes)
    | ShortHeader
    | Size(error: CompactSize.ReadError)
    | InputCount(count: nat)
    | ShortPrevout
    | ShortScriptSig
    | ScriptSigTooLong(length: nat)
    | DigestHex(index: nat)
    | DigestLength(index: nat, length: nat)
    | HistoryHex
    | HistoryLength(length: nat)
    | Library(message: string)

  datatype Injection = Injection(coinbaseHex: string, txid: Option<string>, blockCommitments: Option<string>)

  // The rewrite of a version 6 transaction: its new bytes and its auth digest.
  type Rewrite = (Bytes, Bytes) -> Result<(Bytes, Digest), string>

  function Reverse(s: Bytes): (r: Bytes)
    ensures |r| == |s| && forall i | 0 <= i < |s| :: r[i] == s[|s| - 1 - i]
  {
    seq(|s|, i requires 0 <= i < |s| => s[|s| - 1 - i])
  }

  predicate OccursAt<T(==)>(s: seq<T>, part: seq<T>, i: nat) {
    i + |part| <= |s| && s[i..i + |part|] == part
  }

  predicate Contains<T(==)>(s: seq<T>, part: seq<T>) {
    exists i | 0 <= i <= |s| :: OccursAt(s, part, i)
  }

  // ----- the fields of a one-input transaction

  datatype Layout = Layout(header: Bytes, count: Bytes, prevout: Bytes, sigLength: Bytes, scriptSig: Bytes, rest: Bytes)
  {
    function Serialize(): Bytes {
      header + count + prevout + sigLength + scriptSig + rest
    }

    predicate IsV5() {
      V5 <= header
    }
  }

  function HeaderLength(data: Bytes): Result<nat, Error> {
    if |data| < 4 then Err(TooShort)
    else if data[..4] == V5 then Ok(20)
    else if data[..4] == V4 then Ok(8)
    else Err(UnknownVersion(data[..4]))
  }

  function Parse(data: Bytes): Result<Layout, Error> {
    match HeaderLength(data)
    case Err(e) => Err(e)
    case Ok(h) =>
      if |data| < h + 1 then Err(ShortHeader)
      else
        match CompactSize.Read(data, h)
        case Err(e) => Err(Size(e))
        case Ok((count, width)) =>
          if count != 1 then Err(InputCount(count))
          else if |data| < h + width + 37 then Err(ShortPrevout)
          else ParseScriptSig(data, h, h + width)
  }

  function ParseScriptSig(data: Bytes, h: nat, prevout: nat): Result<Layout, Error>
    requires h <= prevout && prevout + 36 < |data|
  {
    match CompactSize.Read(data, prevout + 36)
    case Err(e) => Err(Size(e))
    case Ok((length, width)) =>
      var start := prevout + 36 + width;
      if |data| < start + length then Err(ShortScriptSig)
      else Ok(LayoutAt(data, h, prevout, start, start + length))
  }

  function LayoutAt(data: Bytes, h: nat, prevout: nat, start: nat, end: nat): Layout
    requires h <= prevout && prevout + 36 <= start <= end <= |data|
  {
    Layout(data[..h], data[h..prevout], data[prevout..prevout + 36],
           data[prevout + 36..start], data[start..end], data[end..])
  }

  // The layout with the tag appended to the scriptSig.
  function Tagged(l: Layout, tag: Bytes): Layout
    requires |l.scriptSig| + |tag| <= MAX_SCRIPT_SIG_LEN
  {
    l.(sigLength := [|l.scriptSig| + |tag|], scriptSig := l.scriptSig + tag)
  }

  // ----- the version 5 digests

  function ScriptsInput(sigLength: Bytes, scriptSig: Bytes): (Bytes, Bytes) {
    (Ascii("ZTxAuthTransHash"), sigLength + scriptSig)
  }

  function AuthInput(h: Hash, branch: Bytes, sigLength: Bytes, scriptSig: Bytes): (Bytes, Bytes) {
    (Ascii("ZTxAuthHash_") + branch,
     Apply(h, ScriptsInput(sigLength, scriptSig)) + h(Ascii("ZTxAuthSapliHash"), []) + h(Ascii("ZTxAuthOrchaHash"), []))
  }

  function CoinbaseAuth(h: Hash, l: Layout): Digest
    requires |l.header| >= 12
  {
    Apply(h, AuthInput(h, l.header[8..12], l.sigLength, l.scriptSig))
  }

  function CommitInput(history: Digest, root: Digest): (Bytes, Bytes) {
    (Ascii("ZcashBlockCommit"), history + root + Zero())
  }

  function Commitment(h: Hash, history: Digest, leaves: seq<Digest>): Digest
    requires leaves != []
  {
    Apply(h, CommitInput(history, Root(h, Padded(leaves))))
  }

  datatype DigestText = NotHex | WrongLength(length: nat) | Read(digest: Digest)

  // Digests arrive as hexadecimal text with their bytes reversed.
  function ReadDigest(text: string): DigestText {
    match Hex.Decode(text)
    case None => NotHex
    case Some(bytes) => if |bytes| != 32 then WrongLength(|bytes|) else Read(Reverse(bytes))
  }

  function ReadTxDigest(texts: seq<string>, i: nat): Result<Digest, Error>
    requires i < |texts|
  {
    match ReadDigest(texts[i])
    case NotHex => Err(DigestHex(i))
    case WrongLength(n) => Err(DigestLength(i, n))
    case Read(d) => Ok(d)
  }

  function ReadHistory(text: string): Result<Digest, Error> {
    match ReadDigest(text)
    case NotHex => Err(HistoryHex)
    case WrongLength(n) => Err(HistoryLength(n))
    case Read(d) => Ok(d)
  }

  // The digests of the texts from index i on, or the first error.
  function ReadTxDigests(texts: seq<string>, i: nat): Result<seq<Digest>, Error>
    requires i <= |texts|
    decreases |texts| - i
  {
    if i == |texts| then Ok([])
    else
      match ReadTxDigest(texts, i)
      case Err(e) => Err(e)
      case Ok(d) =>
        match ReadTxDigests(texts, i + 1)
        case Err(e) => Err(e)
        case Ok(ds) => Ok([d] + ds)
  }

  function Commitments(h: Hash, auth: Digest, texts: seq<string>, historyText: string): Result<string, Error> {
    match ReadTxDigests(texts, 0)
    case Err(e) => Err(e)
    case Ok(digests) =>
      match ReadHistory(historyText)
      case Err(e) => Err(e)
      case Ok(history) => Ok(Hex.Encode(Reverse(Commitment(h, history, [auth] + digests))))
  }

  method BlockCommitmentsFromAuth(h: Hash, auth: Digest, texts: seq<string>, historyText: string)
    returns (r: Result<string, Error>)
    ensures r == Commitments(h, auth, texts, historyText)
  {
    var leaves := [auth];
    assert leaves[1..] == [];
    PrependedNothing(ReadTxDigests(texts, 0));
    for i := 0 to |texts|
      invariant 1 <= |leaves| && leaves[0] == auth
      invariant ReadTxDigests(texts, 0) == Prepended(leaves[1..], ReadTxDigests(texts, i))
    {
      var digest := ReadTxDigest(texts, i);
      if digest.Err? {
        return Err(digest.error);
      }
      PrependedStep(leaves[1..], digest.value, ReadTxDigests(texts, i + 1));
      leaves := leaves + [digest.value];
      assert leaves[1..] == leaves[1..|leaves| - 1] + [digest.value];
    }
    assert leaves[1..] + [] == leaves[1..] && leaves == [auth] + leaves[1..];
    var root := AuthDataMerkleRoot(h, leaves);
    var history := ReadHistory(historyText);
    if history.Err? {
      return Err(history.error);
    }
    r := Ok(Hex.Encode(Reverse(Apply(h, CommitInput(history.value, root)))));
  }

  ghost function Prepended(done: seq<Digest>, r: Result<seq<Digest>, Error>): Result<seq<Digest>, Error> {
    if r.Err? then r else Ok(done + r.value)
  }

  lemma PrependedStep(done: seq<Digest>, d: Digest, r: Result<seq<Digest>, Error>)
    ensures Prepended(done, Prepended([d], r)) == Prepended(done + [d], r)
  {
    if r.Ok? { assert done + ([d] + r.value) == done + [d] + r.value; }
  }

  lemma PrependedNothing(r: Result<seq<Digest>, Error>)
    ensures Prepended([], r) == r
  {
    if r.Ok? { assert [] + r.value == r.value; }
  }

  // ----- the injection

  function Injected(h: Hash, sha256d: Bytes -> Digest, v6: Rewrite,
                    coinbaseHex: string, tag: Bytes, historyText: string, texts: seq<string>): Result<Injection, Error>
  {
    match Hex.Decode(coinbaseHex)
    case None => Err(CoinbaseHex)
    case Some(data) =>
      if |data| >= 4 && data[..4] == V6 then
        match v6(data, tag)
        case Err(message) => Err(Library(message))
        case Ok((rewritten, auth)) => WithCommitments(rewritten, Commitments(h, auth, texts, historyText))
      else
        InjectedParsed(h, sha256d, Parse(data), coinbaseHex, tag, historyText, texts)
  }

  function InjectedParsed(h: Hash, sha256d: Bytes -> Digest, parsed: Result<Layout, Error>,
                          coinbaseHex: string, tag: Bytes, historyText: string, texts: seq<string>)
    : Result<Injection, Error>
  {
    match parsed
    case Err(e) => Err(e)
    case Ok(l) =>
      if Contains(l.scriptSig, tag) then Ok(Injection(coinbaseHex, None, None))
      else if |l.scriptSig| + |tag| > MAX_SCRIPT_SIG_LEN then Err(ScriptSigTooLong(|l.scriptSig| + |tag|))
      else InjectedInto(h, sha256d, Tagged(l, tag), historyText, texts)
  }

  function WithCommitments(data: Bytes, commitments: Result<string, Error>): Result<Injection, Error> {
    match commitments
    case Err(e) => Err(e)
    case Ok(c) => Ok(Injection(Hex.Encode(data), None, Some(c)))
  }

  function InjectedInto(h: Hash, sha256d: Bytes -> Digest, l: Layout, historyText: string, texts: seq<string>)
    : Result<Injection, Error>
  {
    if l.IsV5() && |l.header| >= 12 then
      WithCommitments(l.Serialize(), Commitments(h, CoinbaseAuth(h, l), texts, historyText))
    else
      Ok(Injection(Hex.Encode(l.Serialize()), Some(Hex.Encode(Reverse(sha256d(l.Serialize())))), None))
  }

  method ComputeCoinbaseAuthDigest(h: Hash, branch: Bytes, scriptSigCs: Byte, newScriptSig: Bytes) returns (r: Digest)
    ensures r == Apply(h, AuthInput(h, branch, [scriptSigCs], newScriptSig))
  {
    var scriptsInput := [scriptSigCs] + newScriptSig;
    var scriptsDigest: Bytes := h(Ascii("ZTxAuthTransHash"), scriptsInput);
    var saplingDigest := h(Ascii("ZTxAuthSapliHash"), []);
    var orchardDigest := h(Ascii("ZTxAuthOrchaHash"), []);
    r := h(Ascii("ZTxAuthHash_") + branch, scriptsDigest + saplingDigest + orchardDigest);
  }

  // The version 5 branch of the injection computes the commitment on its own.
  method V5Commitments(h: Hash, branch: Bytes, newCs: Byte, newScriptSig: Bytes,
                       texts: seq<string>, historyText: string)
    returns (r: Result<string, Error>)
    ensures r == Commitments(h, Apply(h, AuthInput(h, branch, [newCs], newScriptSig)), texts, historyText)
  {
    var auth := ComputeCoinbaseAuthDigest(h, branch, newCs, newScriptSig);
    var leaves := [auth];
    assert leaves[1..] == [];
    PrependedNothing(ReadTxDigests(texts, 0));
    for i := 0 to |texts|
      invariant 1 <= |leaves| && leaves[0] == auth
      invariant ReadTxDigests(texts, 0) == Prepended(leaves[1..], ReadTxDigests(texts, i))
    {
      var digest := ReadTxDigest(texts, i);
      if digest.Err? {
        return Err(digest.error);
      }
      PrependedStep(leaves[1..], digest.value, ReadTxDigests(texts, i + 1));
      leaves := leaves + [digest.value];
      assert leaves[1..] == leaves[1..|leaves| - 1] + [digest.value];
    }
    assert leaves[1..] + [] == leaves[1..] && leaves == [auth] + leaves[1..];
    var authDataRoot := AuthDataMerkleRoot(h, leaves);
    var chainHistoryRoot := ReadHistory(historyText);
    if chainHistoryRoot.Err? {
      return Err(chainHistoryRoot.error);
    }
    var blockCommitments := Apply(h, CommitInput(chainHistoryRoot.value, authDataRoot));
    r := Ok(Hex.Encode(Reverse(blockCommitments)));
  }

  method InjectCoinbaseTag(h: Hash, sha256d: Bytes -> Digest, v6: Rewrite,
                           coinbaseHex: string, tag: Bytes, historyText: string, texts: seq<string>)
    returns (r: Result<Injection, Error>)
    requires tag != []
    ensures r == Injected(h, sha256d, v6, coinbaseHex, tag, historyText, texts)
  {
    var decoded := Hex.Decode(coinbaseHex);
    if decoded.None? {
      return Err(CoinbaseHex);
    }
    var data := decoded.value;
    if |data| < 4 {
      return Err(TooShort);
    }
    if data[0..4] == V6 {
      var rewritten := v6(data, tag);
      if rewritten.Err? {
        return Err(Library(rewritten.error));
      }
      var commitments := BlockCommitmentsFromAuth(h, rewritten.value.1, texts, historyText);
      return WithCommitments(rewritten.value.0, commitments);
    }
    r := InjectV4OrV5(h, sha256d, data, coinbaseHex, tag, historyText, texts);
  }

  method InjectV4OrV5(h: Hash, sha256d: Bytes -> Digest, data: Bytes,
                      coinbaseHex: string, tag: Bytes, historyText: string, texts: seq<string>)
    returns (r: Result<Injection, Error>)
    requires |data| >= 4 && tag != []
    ensures r == InjectedParsed(h, sha256d, Parse(data), coinbaseHex, tag, historyText, texts)
  {
    var located := LocateScriptSig(data);
    if located.Err? {
      return Err(located.error);
    }
    var (scriptSigLenOffset, scriptSigOffset, scriptSigEnd) := located.value;
    if Contains(data[scriptSigOffset..scriptSigEnd], tag) {
      return Ok(Injection(coinbaseHex, None, None));
    }
    var newScriptSigLen := scriptSigEnd - scriptSigOffset + |tag|;
    if newScriptSigLen > MAX_SCRIPT_SIG_LEN {
      return Err(ScriptSigTooLong(newScriptSigLen));
    }
    r := Splice(h, sha256d, data, tag, scriptSigLenOffset, scriptSigOffset, scriptSigEnd, historyText, texts,
                Parse(data).value);
  }

  // The layout found by parsing, in terms of offsets into the bytes.
  ghost predicate LaidOut(data: Bytes, l: Layout, lenOffset: nat, start: nat, end: nat) {
    && 12 < lenOffset <= start <= end <= |data|
    && l.header + l.count + l.prevout == data[..lenOffset]
    && l.sigLength == data[lenOffset..start] && l.scriptSig == data[start..end] && l.rest == data[end..]
    && HeaderLength(data) == Ok(|l.header|)
  }

  lemma LayoutAtIsLaidOut(data: Bytes, h: nat, prevout: nat, start: nat, end: nat)
    requires h <= prevout && prevout + 36 <= start <= end <= |data| && HeaderLength(data) == Ok(h)
    ensures LaidOut(data, LayoutAt(data, h, prevout, start, end), prevout + 36, start, end)
  {
    assert data[..h] + data[h..prevout] + data[prevout..prevout + 36] == data[..prevout + 36];
  }

  method LocateScriptSig(data: Bytes) returns (r: Result<(nat, nat, nat), Error>)
    requires |data| >= 4
    ensures match Parse(data)
      case Err(e) => r == Err(e)
      case Ok(l) => r.Ok? && LaidOut(data, l, r.value.0, r.value.1, r.value.2)
  {
    var version := HeaderLength(data);
    if version.Err? {
      return Err(version.error);
    }
    var headerLen := version.value;
    if |data| < headerLen + 1 {
      return Err(ShortHeader);
    }
    var txInCount := CompactSize.Read(data, headerLen);
    if txInCount.Err? {
      return Err(Size(txInCount.error));
    }
    if txInCount.value.0 != 1 {
      return Err(InputCount(txInCount.value.0));
    }
    var prevoutOffset := headerLen + txInCount.value.1;
    var scriptSigLenOffset := prevoutOffset + 36;
    if |data| < scriptSigLenOffset + 1 {
      return Err(ShortPrevout);
    }
    var scriptSigLen := CompactSize.Read(data, scriptSigLenOffset);
    if scriptSigLen.Err? {
      return Err(Size(scriptSigLen.error));
    }
    var scriptSigOffset := scriptSigLenOffset + scriptSigLen.value.1;
    var scriptSigEnd := scriptSigOffset + scriptSigLen.value.0;
    if |data| < scriptSigEnd {
      return Err(ShortScriptSig);
    }
    ghost var l := LayoutAt(data, headerLen, prevoutOffset, scriptSigOffset, scriptSigEnd);
    assert Parse(data) == Ok(l);
    LayoutAtIsLaidOut(data, headerLen, prevoutOffset, scriptSigOffset, scriptSigEnd);
    r := Ok((scriptSigLenOffset, scriptSigOffset, scriptSigEnd));
  }

  method Splice(h: Hash, sha256d: Bytes -> Digest, data: Bytes, tag: Bytes,
                scriptSigLenOffset: nat, scriptSigOffset: nat, scriptSigEnd: nat,
                historyText: string, texts: seq<string>, ghost l: Layout)
    returns (r: Result<Injection, Error>)
    requires LaidOut(data, l, scriptSigLenOffset, scriptSigOffset, scriptSigEnd)
    requires scriptSigEnd - scriptSigOffset + |tag| <= MAX_SCRIPT_SIG_LEN
    ensures r == InjectedInto(h, sha256d, Tagged(l, tag), historyText, texts)
  {
    var newScriptSig := data[scriptSigOffset..scriptSigEnd] + tag;
    var newCs := CompactSize.ByteOf(|newScriptSig|).value;
    var newData := data[..scriptSigLenOffset];
    newData := newData + [newCs];
    newData := newData + newScriptSig;
    newData := newData + data[scriptSigEnd..];
    assert Tagged(l, tag).Serialize() == newData;
    HeaderBytes(data, l, scriptSigLenOffset, scriptSigOffset, scriptSigEnd);
    if data[0..4] == V5 {
      var commitments := V5Commitments(h, data[8..12], newCs, newScriptSig, texts, historyText);
      r := WithCommitments(newData, commitments);
    } else {
      var txid := Hex.Encode(Reverse(sha256d(newData)));
      r := Ok(Injection(Hex.Encode(newData), Some(txid), None));
    }
  }

  lemma HeaderBytes(data: Bytes, l: Layout, lenOffset: nat, start: nat, end: nat)
    requires LaidOut(data, l, lenOffset, start, end)
    ensures l.IsV5() <==> data[..4] == V5
    ensures l.IsV5() ==> |l.header| >= 12 && l.header[8..12] == data[8..12]
  {
    assert l.header == data[..lenOffset][..|l.header|] == data[..|l.header|];
  }
}
