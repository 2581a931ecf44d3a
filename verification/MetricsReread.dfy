// After an early exit the text still held, several lines, is parsed as if it
// were one line.  What that reads, when it is harmless, and a page for which
// it is not.

module MetricsReread {
  import opened Common
  import opened Split
  import opened Metrics
  import opened MetricsStream

  // Small letters and underscores: no space, newline or brace.
  ghost predicate IsName(s: string) {
    s != "" && forall i | 0 <= i < |s| :: '_' <= s[i] <= 'z'
  }

  // ----- the held text is its first line and more

  // The number after the name: from the first line, unless nothing but spaces
  // follows there, when the value is looked for in the text behind it.
  function HeldNumber(first: string, more: string, name: string): Option<nat> {
    if !(name + " " <= first) then None
    else
      var value := SkipSpaces(first[|name| + 1..]);
      ParseU64(Word(if value != "" then value else SkipSpaces(more)))
  }

  // The label: from the first line, unless its braces are closed further on.
  function HeldLabel(first: string, more: string, key: string): Option<string> {
    if HasLine(first, '}') || !HasLine(first, '{') then ExtractLabel(first, key)
    else if !HasLine(more, '}') then None
    else FindLabel(After(first, '{') + "\n" + more[..IndexOf(more, '}')], key)
  }

  // The count: from the unfinished last line, whatever the first line says.
  function HeldCount(more: string): Option<nat> {
    TrailingU64(Partial(more, '\n'))
  }

  function HeldGauge(first: string, more: string): Reading {
    GaugeBy(name => HeldNumber(first, more, name))
  }

  function HeldLabelled(first: string, more: string): Reading {
    LabelledBy(first, key => HeldLabel(first, more, key), HeldCount(more))
  }

  function HeldReading(first: string, more: string): Reading {
    if HeldGauge(first, more) != Nothing then HeldGauge(first, more) else HeldLabelled(first, more)
  }

  lemma PrefixInFirst(p: string, first: string, more: string)
    requires '\n' !in p
    ensures p <= first + "\n" + more <==> p <= first
  {
    if p <= first + "\n" + more {
      if |p| > |first| { LongPrefix(p, first, more); }
      assert (first + "\n" + more)[..|p|] == first[..|p|];
    }
  }

  lemma LongPrefix(p: string, first: string, more: string)
    requires p <= first + "\n" + more && |p| > |first|
    ensures '\n' in p
  {
    assert p[|first|] == (first + "\n" + more)[|first|] == '\n';
  }

  lemma {:induction false} SkipSpacesHeld(v: string, more: string)
    ensures SkipSpaces(v + "\n" + more) == if SkipSpaces(v) != "" then SkipSpaces(v) + "\n" + more else SkipSpaces(more)
    decreases v
  {
    var text := v + "\n" + more;
    if v == "" {
      assert text[0] == '\n' && text[1..] == more;
    } else if IsSpace(v[0]) {
      assert text[1..] == v[1..] + "\n" + more;
      SkipSpacesHeld(v[1..], more);
    }
  }

  lemma {:induction false} WordHeld(v: string, more: string)
    ensures Word(v + "\n" + more) == Word(v)
    decreases v
  {
    var text := v + "\n" + more;
    if v == "" {
      assert text[0] == '\n';
    } else if !IsSpace(v[0]) {
      assert text[1..] == v[1..] + "\n" + more;
      WordHeld(v[1..], more);
    }
  }

  lemma NameEndsInSpace(name: string)
    requires IsName(name)
    ensures '\n' !in name + " "
  {
  }

  lemma NumberIsHeld(first: string, more: string, name: string)
    requires IsName(name)
    ensures UnlabeledU64(first + "\n" + more, name) == HeldNumber(first, more, name)
  {
    NameEndsInSpace(name);
    PrefixInFirst(name + " ", first, more);
    if name + " " <= first {
      var v := first[|name| + 1..];
      assert (first + "\n" + more)[|name| + 1..] == v + "\n" + more;
      SkipSpacesHeld(v, more);
      WordHeld(SkipSpaces(v), more);
    }
  }

  lemma GaugeIsHeld(first: string, more: string)
    ensures Gauge(first + "\n" + more) == HeldGauge(first, more)
  {
    GaugeNames();
    NumberIsHeld(first, more, NETWORK_TIP);
    NumberIsHeld(first, more, DISTANCE);
    NumberIsHeld(first, more, RPC_ACTIVE);
    NumberIsHeld(first, more, VERIFIED_TOTAL);
    NumberIsHeld(first, more, GOSSIP);
    NumberIsHeld(first, more, PEERS);
    NumberIsHeld(first, more, MEMPOOL_SIZE);
    NumberIsHeld(first, more, MEMPOOL_QUEUED);
    NumberIsHeld(first, more, MEMPOOL_BYTES);
  }

  lemma GaugeNames()
    ensures IsName(NETWORK_TIP) && IsName(DISTANCE) && IsName(RPC_ACTIVE)
    ensures IsName(VERIFIED_TOTAL) && IsName(GOSSIP) && IsName(PEERS)
    ensures IsName(MEMPOOL_SIZE) && IsName(MEMPOOL_QUEUED) && IsName(MEMPOOL_BYTES)
  {
    NetworkTipIsName();
    DistanceIsName();
    RpcActiveIsName();
    VerifiedTotalIsName();
    GossipIsName();
    PeersIsName();
    MempoolSizeIsName();
    MempoolQueuedIsName();
    MempoolBytesIsName();
  }

  lemma NetworkTipIsName() ensures IsName(NETWORK_TIP) {}
  lemma DistanceIsName() ensures IsName(DISTANCE) {}
  lemma RpcActiveIsName() ensures IsName(RPC_ACTIVE) {}
  lemma VerifiedTotalIsName() ensures IsName(VERIFIED_TOTAL) {}
  lemma GossipIsName() ensures IsName(GOSSIP) {}
  lemma PeersIsName() ensures IsName(PEERS) {}
  lemma MempoolSizeIsName() ensures IsName(MEMPOOL_SIZE) {}
  lemma MempoolQueuedIsName() ensures IsName(MEMPOOL_QUEUED) {}
  lemma MempoolBytesIsName() ensures IsName(MEMPOOL_BYTES) {}

  // ----- the count is behind the last space

  lemma {:induction false} NewlineIsNoDigit(s: string)
    requires '\n' in s
    ensures Digits(s) == None
    decreases s
  {
    var front := s[..|s| - 1];
    if s[|s| - 1] != '\n' {
      assert s == front + [s[|s| - 1]];
      NewlineIsNoDigit(front);
    }
  }

  lemma NewlineIsNoNumber(s: string)
    requires '\n' in s
    ensures ParseU64(s) == None
  {
    NewlineIsNoDigit(s);
    if s[0] == '+' {
      assert s == [s[0]] + s[1..];
      NewlineIsNoDigit(s[1..]);
    }
  }

  lemma IndexLater<T>(a: seq<T>, b: seq<T>, x: T)
    requires x !in a
    ensures IndexOf(a + b, x) == |a| + IndexOf(b, x)
    ensures HasLine(b, x) ==> HasLine(a + b, x) && After(a + b, x) == After(b, x)
  {
    var pos := |a| + IndexOf(b, x);
    assert (a + b)[..pos] == a + b[..IndexOf(b, x)];
    IndexUnique(a + b, x, pos);
  }

  lemma {:induction false} PartialSkips<T>(a: seq<T>, b: seq<T>, x: T)
    ensures HasLine(b, x) ==> Partial(a + b, x) == Partial(b, x)
    ensures !HasLine(b, x) ==> Partial(a + b, x) == Partial(a, x) + b
    decreases |a|
  {
    if HasLine(a, x) {
      HeadOfConcat(a, b, x);
      PartialSkips(After(a, x), b, x);
    } else {
      assert a[..|a|] == a;
      IndexLater(a, b, x);
    }
  }

  lemma CountOnLastLine(front: string, last: string)
    requires front != "" && front[|front| - 1] == '\n' && '\n' !in last
    ensures TrailingU64(front + last) == TrailingU64(last)
  {
    PartialSkips(front, last, ' ');
    if HasLine(last, ' ') {
      HasLineOfConcat(front, last, ' ');
    } else {
      LastEndIsPartial(front, ' ');
      var token := Partial(front, ' ') + last;
      assert LastEnd(front, ' ') < |front|;
      assert Partial(front, ' ')[|Partial(front, ' ')| - 1] == '\n';
      assert token[|Partial(front, ' ')| - 1] == '\n';
      NewlineIsNoNumber(token);
    }
  }

  lemma HasLineOfConcat<T>(a: seq<T>, b: seq<T>, x: T)
    requires HasLine(b, x)
    ensures HasLine(a + b, x)
  {
    if HasLine(a, x) { HeadOfConcat(a, b, x); }
    else {
      assert a[..|a|] == a;
      IndexLater(a, b, x);
    }
  }

  lemma CountIsHeld(first: string, more: string)
    requires '\n' !in first
    ensures TrailingU64(first + "\n" + more) == HeldCount(more)
  {
    var text := first + "\n" + more;
    var end := LastEnd(more, '\n');
    LastEndIsPartial(more, '\n');
    PartialHasNone(more, '\n');
    var front := first + "\n" + more[..end];
    assert text == front + more[end..];
    CountOnLastLine(front, more[end..]);
  }

  // ----- the labels

  lemma LabelIsHeld(first: string, more: string, key: string)
    requires HasLine(first, '{')
    ensures ExtractLabel(first + "\n" + more, key) == HeldLabel(first, more, key)
  {
    assert first + "\n" + more == first + ("\n" + more);
    if HasLine(first, '}') { ClosedLabel(first, "\n" + more, key); }
    else { OpenLabel(first, more, key); }
  }

  lemma ClosedLabel(first: string, tail: string, key: string)
    requires HasLine(first, '{') && HasLine(first, '}')
    ensures ExtractLabel(first + tail, key) == ExtractLabel(first, key)
  {
    HeadOfConcat(first, tail, '{');
    HeadOfConcat(first, tail, '}');
    var open, close := IndexOf(first, '{'), IndexOf(first, '}');
    if open < close { SameSlice(first, tail, open + 1, close); }
    SameBraces(first + tail, first, key);
  }

  lemma SameBraces(a: string, b: string, key: string)
    requires IndexOf(a, '{') == IndexOf(b, '{') < Min(|a|, |b|) && IndexOf(a, '}') == IndexOf(b, '}') < Min(|a|, |b|)
    requires IndexOf(b, '{') < IndexOf(b, '}') ==>
      a[IndexOf(b, '{') + 1..IndexOf(b, '}')] == b[IndexOf(b, '{') + 1..IndexOf(b, '}')]
    ensures ExtractLabel(a, key) == ExtractLabel(b, key)
  {
    LabelBetween(a, IndexOf(b, '{'), IndexOf(b, '}'), key);
    LabelBetween(b, IndexOf(b, '{'), IndexOf(b, '}'), key);
  }

  lemma SameSlice(a: string, b: string, i: nat, j: nat)
    requires i <= j <= |a|
    ensures (a + b)[i..j] == a[i..j]
  {
  }

  lemma OpenLabel(first: string, more: string, key: string)
    requires HasLine(first, '{') && !HasLine(first, '}')
    ensures ExtractLabel(first + ("\n" + more), key) == HeldLabel(first, more, key)
  {
    BracesAcross(first, more);
    LabelBetween(first + ("\n" + more), IndexOf(first, '{'), |first| + 1 + IndexOf(more, '}'), key);
  }

  lemma BracesAcross(first: string, more: string)
    requires HasLine(first, '{') && !HasLine(first, '}')
    ensures var text := first + ("\n" + more);
      var (open, close) := (IndexOf(first, '{'), IndexOf(more, '}'));
      && IndexOf(text, '{') == open && IndexOf(text, '}') == |first| + 1 + close
      && text[open + 1..|first| + 1 + close] == After(first, '{') + "\n" + more[..close]
  {
    HeadOfConcat(first, "\n" + more, '{');
    CloseIsLater(first, more);
    LaterSlice(first, more, IndexOf(first, '{') + 1, IndexOf(more, '}'));
  }

  lemma LabelBetween(text: string, open: nat, close: nat, key: string)
    requires IndexOf(text, '{') == open < |text| && IndexOf(text, '}') == close
    ensures ExtractLabel(text, key)
         == if close == |text| || close <= open then None else FindLabel(text[open + 1..close], key)
  {
  }

  lemma CloseIsLater(first: string, more: string)
    requires !HasLine(first, '}')
    ensures IndexOf(first + ("\n" + more), '}') == |first| + 1 + IndexOf(more, '}')
  {
    assert first[..|first|] == first;
    IndexLater(first, "\n" + more, '}');
    IndexLater("\n", more, '}');
  }

  lemma LaterSlice(first: string, more: string, i: nat, j: nat)
    requires i <= |first| && j <= |more|
    ensures (first + ("\n" + more))[i..|first| + 1 + j] == first[i..] + "\n" + more[..j]
  {
  }

  // ----- what the held text reads

  lemma {:induction false} LabelledIsHeld(first: string, more: string)
    requires '\n' !in first
    ensures Labelled(first + "\n" + more) == HeldLabelled(first, more)
  {
    FamiliesInFirst(first, more);
    CountIsHeld(first, more);
    if HasLine(first, '{') {
      LabelIsHeld(first, more, "method");
      LabelIsHeld(first, more, "version");
    } else {
      FamilyHasBrace(first, REQUESTS);
      FamilyHasBrace(first, ERRORS);
      FamilyHasBrace(first, ZEBRAD_BUILD);
      FamilyHasBrace(first, ZAKURA_BUILD);
    }
  }

  lemma FamilyNames()
    ensures IsName(REQUESTS) && IsName(ERRORS) && IsName(ZEBRAD_BUILD) && IsName(ZAKURA_BUILD)
  {
  }

  lemma FamiliesInFirst(first: string, more: string)
    ensures var text := first + "\n" + more;
      && (REQUESTS + "{" <= text <==> REQUESTS + "{" <= first)
      && (ERRORS + "{" <= text <==> ERRORS + "{" <= first)
      && (ZEBRAD_BUILD + "{" <= text <==> ZEBRAD_BUILD + "{" <= first)
      && (ZAKURA_BUILD + "{" <= text <==> ZAKURA_BUILD + "{" <= first)
  {
    FamilyNames();
    FamilyInFirst(REQUESTS, first, more);
    FamilyInFirst(ERRORS, first, more);
    FamilyInFirst(ZEBRAD_BUILD, first, more);
    FamilyInFirst(ZAKURA_BUILD, first, more);
  }

  lemma FamilyInFirst(family: string, first: string, more: string)
    requires IsName(family)
    ensures family + "{" <= first + "\n" + more <==> family + "{" <= first
  {
    PrefixInFirst(family + "{", first, more);
  }

  lemma FamilyHasBrace(line: string, family: string)
    ensures family + "{" <= line ==> HasLine(line, '{')
  {
    if family + "{" <= line {
      assert line[|family|] == (family + "{")[|family|];
      FoundAt(line, |family|, '{');
    }
  }

  lemma FoundAt(s: string, i: nat, x: char)
    requires i < |s| && s[i] == x
    ensures HasLine(s, x)
  {
    if !HasLine(s, x) { InPrefix(s, i, |s|); }
  }

  // Parsing the held text is merging what its first line, the text behind that
  // line and its unfinished last line say together.
  lemma HeldIsRead(first: string, more: string)
    requires '\n' !in first
    ensures Rest(first + "\n" + more) == HeldReading(first, more)
  {
    GaugeIsHeld(first, more);
    LabelledIsHeld(first, more);
  }

  function FirstHeld(text: string): string {
    text[..IndexOf(text, '\n')]
  }

  // The reading repeats what the snapshot already holds, or adds zero.
  predicate Agrees(m: Snapshot, r: Reading) {
    match r
    case NetworkTip(n) => m.networkTipHeight == Some(n)
    case DistanceToTip(n) => m.distanceToTip == Some(n)
    case RpcActive(n) => m.rpcActiveRequests == Some(n)
    case VerifiedBlocks(n) => m.verifiedBlocksTotal == Some(n)
    case GossipQueued(n) => m.gossipQueuedBlocks == Some(n)
    case Peers(n) => m.peers == Some(n)
    case MempoolTxs(n) => m.mempoolTxs == Some(n)
    case MempoolBytes(n) => m.mempoolBytes == Some(n)
    case GbtRequests(n) => n == 0
    case GbtErrors(n) => n == 0
    case Version(v) => m.zebraVersion == Some(v)
    case Nothing => true
  }

  lemma MergeAgrees(m: Snapshot, r: Reading)
    requires AllTargetsFilled(m)
    ensures Merge(m, r) == m <==> Agrees(m, r)
  {
  }

  // Parsing held text into a filled snapshot changes nothing exactly when its
  // first line is a comment, or what the held text reads agrees with the snapshot.
  lemma RereadIsHarmless(m: Snapshot, text: string)
    requires AllTargetsFilled(m) && HasLine(text, '\n')
    ensures ParseLine(m, text) == m <==>
      "#" <= FirstHeld(text) || Agrees(m, HeldReading(FirstHeld(text), After(text, '\n')))
  {
    var first, more := FirstHeld(text), After(text, '\n');
    assert text == first + "\n" + more;
    assert text[0] == '#' <==> "#" <= first;
    HeldIsRead(first, more);
    MergeAgrees(m, Rest(text));
  }

  // So a scrape that stopped early in chunk k reports what its lines say exactly
  // when the line that chunk k completed first is a comment or, read together
  // with the rest of the chunk, says nothing new.
  lemma ScrapeAgreesExactly(chunks: seq<string>, k: nat)
    requires ExitsAt(chunks, k)
    ensures var held := Pending(chunks, k);
      && HasLine(held, '\n')
      && (ParseLine(Scan(chunks), held) == Scan(chunks) <==>
          "#" <= FirstHeld(held) || Agrees(Scan(chunks), HeldReading(FirstHeld(held), After(held, '\n'))))
  {
    ScanNext(chunks, k);
    ScanStops(chunks, k);
    RereadIsHarmless(Scan(chunks), Pending(chunks, k));
  }

  // ----- the two kinds of damage

  lemma NameInLine(line: string, a: string, x: char)
    requires IsName(a) && a + [x] <= line
    ensures |a| < |line| && line[..|a|] == a && line[|a|] == x
    ensures forall i | 0 <= i < |a| :: '_' <= line[i] <= 'z'
  {
    assert line[|a|] == (a + [x])[|a|];
    assert (a + [x])[..|a|] == a;
  }

  // A line starts with one name and one character behind it.
  lemma OneName(line: string, a: string, x: char, b: string, y: char)
    requires IsName(a) && IsName(b) && !('_' <= x <= 'z') && !('_' <= y <= 'z')
    requires a + [x] <= line && b + [y] <= line
    ensures a == b && x == y
  {
    NameInLine(line, a, x);
    NameInLine(line, b, y);
  }

  // A number found for one name is the only one, and it stays in the held text.
  lemma NumberStays(first: string, more: string, name: string, other: string)
    requires IsName(name) && IsName(other) && UnlabeledU64(first, name).Some?
    ensures HeldNumber(first, more, other) == UnlabeledU64(first, other)
  {
    assert Word("") == "";
    if other + " " <= first { OneName(first, name, ' ', other, ' '); }
  }

  lemma GaugeHasName(line: string) returns (name: string)
    requires Gauge(line) != Nothing
    ensures IsName(name) && UnlabeledU64(line, name).Some?
  {
    GaugeNames();
    if UnlabeledU64(line, NETWORK_TIP).Some? { name := NETWORK_TIP; }
    else if UnlabeledU64(line, DISTANCE).Some? { name := DISTANCE; }
    else if UnlabeledU64(line, RPC_ACTIVE).Some? { name := RPC_ACTIVE; }
    else if UnlabeledU64(line, VERIFIED_TOTAL).Some? { name := VERIFIED_TOTAL; }
    else if UnlabeledU64(line, GOSSIP).Some? { name := GOSSIP; }
    else if UnlabeledU64(line, PEERS).Some? { name := PEERS; }
    else if UnlabeledU64(line, MEMPOOL_SIZE).Some? { name := MEMPOOL_SIZE; }
    else if UnlabeledU64(line, MEMPOOL_QUEUED).Some? { name := MEMPOOL_QUEUED; }
    else { name := MEMPOOL_BYTES; }
  }

  // A gauge on the first held line gets that line's value again, whatever the
  // later lines set it to.
  lemma GaugeGoesBack(m: Snapshot, first: string, more: string)
    requires AllTargetsFilled(m) && '\n' !in first && first != "" && first[0] != '#' && Gauge(first) != Nothing
    ensures ParseLine(m, first + "\n" + more) == Merge(m, Gauge(first))
  {
    FirstGaugeIsRead(first, more);
    HeldIsMerged(m, first, more);
  }

  lemma HeldIsMerged(m: Snapshot, first: string, more: string)
    requires AllTargetsFilled(m) && '\n' !in first && first != "" && first[0] != '#'
    ensures ParseLine(m, first + "\n" + more) == Merge(m, HeldReading(first, more))
  {
    HeldIsRead(first, more);
    assert (first + "\n" + more)[0] == first[0];
  }

  lemma FirstGaugeIsRead(first: string, more: string)
    requires Gauge(first) != Nothing
    ensures HeldReading(first, more) == Gauge(first)
  {
    var name := GaugeHasName(first);
    GaugeNames();
    NumberStays(first, more, name, NETWORK_TIP);
    NumberStays(first, more, name, DISTANCE);
    NumberStays(first, more, name, RPC_ACTIVE);
    NumberStays(first, more, name, VERIFIED_TOTAL);
    NumberStays(first, more, name, GOSSIP);
    NumberStays(first, more, name, PEERS);
    NumberStays(first, more, name, MEMPOOL_SIZE);
    NumberStays(first, more, name, MEMPOOL_QUEUED);
    NumberStays(first, more, name, MEMPOOL_BYTES);
  }

  lemma FamilyIsNoName(line: string, family: string, name: string)
    requires IsName(family) && IsName(name) && family + "{" <= line
    ensures !(name + " " <= line)
  {
    if name + " " <= line {
      OneName(line, family, '{', name, ' ');
    }
  }

  // Where a labelled family starts the line, no gauge does.
  lemma FamilyIsNoGauge(line: string, family: string)
    requires IsName(family) && family + "{" <= line
    ensures !(NETWORK_TIP + " " <= line) && !(DISTANCE + " " <= line) && !(RPC_ACTIVE + " " <= line)
    ensures !(VERIFIED_TOTAL + " " <= line) && !(GOSSIP + " " <= line) && !(PEERS + " " <= line)
    ensures !(MEMPOOL_SIZE + " " <= line) && !(MEMPOOL_QUEUED + " " <= line) && !(MEMPOOL_BYTES + " " <= line)
  {
    GaugeNames();
    FamilyIsNoName(line, family, NETWORK_TIP);
    FamilyIsNoName(line, family, DISTANCE);
    FamilyIsNoName(line, family, RPC_ACTIVE);
    FamilyIsNoName(line, family, VERIFIED_TOTAL);
    FamilyIsNoName(line, family, GOSSIP);
    FamilyIsNoName(line, family, PEERS);
    FamilyIsNoName(line, family, MEMPOOL_SIZE);
    FamilyIsNoName(line, family, MEMPOOL_QUEUED);
    FamilyIsNoName(line, family, MEMPOOL_BYTES);
  }

  lemma NoHeldGauge(first: string, more: string, family: string)
    requires IsName(family) && family + "{" <= first
    ensures HeldGauge(first, more) == Nothing
  {
    FamilyIsNoGauge(first, family);
  }

  // A block template counter on the first held line adds the last number of the
  // unfinished last line, whatever metric that line belongs to.
  lemma CounterAddsLastNumber(m: Snapshot, first: string, more: string)
    requires AllTargetsFilled(m) && CountsRequests(first)
    ensures ParseLine(m, first + "\n" + more) == Merge(m, Counted(more))
  {
    CounterIsRead(first, more);
    RequestsIsNoComment(first);
    HeldIsMerged(m, first, more);
  }

  // One line of the request counter, for the method that is watched.
  ghost predicate CountsRequests(line: string) {
    && '\n' !in line && REQUESTS + "{" <= line && HasLine(line, '}')
    && ExtractLabel(line, "method") == Some("getblocktemplate")
  }

  function Counted(more: string): Reading {
    match HeldCount(more) case Some(n) => GbtRequests(n) case None => Nothing
  }

  // It adds nothing when the chunk ended with its line.
  lemma NothingUnfinished(more: string)
    requires more == "" || more[|more| - 1] == '\n'
    ensures HeldCount(more) == None && Counted(more) == Nothing
  {
    LastEndIsPartial(more, '\n');
    assert Partial(more, '\n') == "";
  }

  lemma RequestsIsNoComment(line: string)
    requires REQUESTS + "{" <= line
    ensures line != "" && line[0] != '#'
  {
    assert line[0] == (REQUESTS + "{")[0];
  }

  lemma CounterIsRead(first: string, more: string)
    requires REQUESTS + "{" <= first && HasLine(first, '}')
    requires ExtractLabel(first, "method") == Some("getblocktemplate")
    ensures HeldReading(first, more) == Counted(more)
  {
    FamilyNames();
    NoHeldGauge(first, more, REQUESTS);
    RequestsAreCounted(first, more);
  }

  lemma RequestsAreCounted(first: string, more: string)
    requires REQUESTS + "{" <= first && HasLine(first, '}')
    requires ExtractLabel(first, "method") == Some("getblocktemplate")
    ensures HeldLabelled(first, more) == Counted(more)
  {
    assert HeldLabel(first, more, "method") == ExtractLabel(first, "method");
  }
}
