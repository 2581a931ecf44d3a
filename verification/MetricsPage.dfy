// Pages on which the scrape differs from the lines it has read: the peer count
// goes from 7 to 8, and the reader that stops early reports 7; or a count of
// peers is added to the count of requests.

module MetricsPage {
  import opened Common
  import opened Split
  import opened Metrics
  import opened MetricsStream
  import opened MetricsReread
  import opened MetricsLines

  // ----- pages

  function Unlines(lines: seq<string>): string {
    if lines == [] then "" else lines[0] + "\n" + Unlines(lines[1..])
  }

  ghost predicate IsLine(line: string) {
    '\n' !in line && (line == "" || line[|line| - 1] != '\r')
  }

  lemma {:induction false} LinesComeBack(lines: seq<string>)
    requires forall i | 0 <= i < |lines| :: IsLine(lines[i])
    ensures CompleteLines(Unlines(lines)) == lines && Partial(Unlines(lines), '\n') == ""
  {
    if lines != [] {
      var first, rest := lines[0], Unlines(lines[1..]);
      assert Unlines(lines) == first + ("\n" + rest);
      IndexLater(first, "\n" + rest, '\n');
      assert Unlines(lines)[..|first|] == first;
      assert ("\n" + rest)[1..] == rest;
      LinesComeBack(lines[1..]);
    }
  }

  // A carriage return before the newline is no part of the line.
  lemma CarriageReturn(line: string, rest: string)
    requires '\n' !in line
    ensures CompleteLines(line + "\r\n" + rest) == [line] + CompleteLines(rest)
  {
    var text, front := line + "\r\n" + rest, line + "\r";
    assert text == front + ("\n" + rest);
    IndexLater(front, "\n" + rest, '\n');
    assert text[..|front|] == front && ("\n" + rest)[1..] == rest;
    assert front[..|front| - 1] == line;
  }

  function MergeAll(m: Snapshot, rs: seq<Reading>): Snapshot
    decreases rs
  {
    if rs == [] then m else MergeAll(Merge(m, rs[0]), rs[1..])
  }

  lemma {:induction false} LinesSay(m: Snapshot, lines: seq<string>, rs: seq<Reading>)
    requires |lines| == |rs| && forall i | 0 <= i < |lines| :: Says(lines[i], rs[i])
    ensures Fold(m, lines) == MergeAll(m, rs)
    decreases lines
  {
    if lines != [] {
      assert ParseLine(m, lines[0]) == Merge(m, rs[0]);
      LinesSay(Merge(m, rs[0]), lines[1..], rs[1..]);
    }
  }

  // While something is missing to the last, the loop does not stop.
  lemma {:induction false} NotStopped(m: Snapshot, lines: seq<string>)
    requires !AllTargetsFilled(Fold(m, lines))
    ensures FoldUntilFilled(m, lines) == Fold(m, lines)
    decreases lines
  {
    if lines != [] {
      var n := ParseLine(m, lines[0]);
      if AllTargetsFilled(n) { FilledStays(n, lines[1..]); }
      else { NotStopped(n, lines[1..]); }
    }
  }

  // ----- the page

  // A well-formed line with its reading.
  ghost predicate Good(line: string, r: Reading) {
    IsLine(line) && Says(line, r)
  }

  lemma DigitsAreLine(text: string, n: nat)
    requires '\n' !in text
    ensures IsLine(text + Decimal(n))
  {
    DecimalIsDigits(n);
  }

  lemma GaugeIsLine(name: string, n: nat)
    requires IsName(name)
    ensures IsLine(GaugeLine(name, n))
  {
    DigitsAreLine(name + " ", n);
  }

  lemma CounterIsLine(family: string, labels: seq<(string, string)>, n: nat)
    requires IsName(family) && ArePlain(labels)
    ensures IsLine(CounterLine(family, labels, n))
  {
    LabelsHaveNoNewline(labels);
    DigitsAreLine(family + "{" + LabelsText(labels) + "} ", n);
  }

  lemma {:induction false} LabelsHaveNoNewline(labels: seq<(string, string)>)
    requires ArePlain(labels)
    ensures '\n' !in LabelsText(labels)
    decreases labels
  {
    PlainHasNone(labels[0].0, '\n');
    PlainHasNone(labels[0].1, '\n');
    if |labels| > 1 { LabelsHaveNoNewline(labels[1..]); }
  }

  lemma GoodPeers(n: nat)
    requires n < U64Bound()
    ensures Good(GaugeLine(PEERS, n), Peers(n))
  {
    GaugeNames();
    NodeGauges(n);
    GaugeIsLine(PEERS, n);
  }

  lemma GoodSync()
    ensures Good(GaugeLine(NETWORK_TIP, 1), NetworkTip(1)) && Good(GaugeLine(DISTANCE, 0), DistanceToTip(0))
  {
    GaugeNames();
    SyncGauges(0);
    SyncGauges(1);
    GaugeIsLine(NETWORK_TIP, 1);
    GaugeIsLine(DISTANCE, 0);
  }

  lemma GoodGauges()
    ensures Good(GaugeLine(RPC_ACTIVE, 0), RpcActive(0)) && Good(GaugeLine(GOSSIP, 0), GossipQueued(0))
    ensures Good(GaugeLine(MEMPOOL_SIZE, 0), MempoolTxs(0))
  {
    GaugeNames();
    NodeGauges(0);
    MempoolGauges(0);
    GaugeIsLine(RPC_ACTIVE, 0);
    GaugeIsLine(GOSSIP, 0);
    GaugeIsLine(MEMPOOL_SIZE, 0);
  }

  function Method(): seq<(string, string)> {
    [("method", "getblocktemplate")]
  }

  function RequestLine(n: nat): string {
    CounterLine(REQUESTS, Method(), n)
  }

  function ErrorLine(n: nat): string {
    CounterLine(ERRORS, Method(), n)
  }

  lemma GoodRequests(n: nat)
    requires n < U64Bound()
    ensures Good(RequestLine(n), GbtRequests(n))
  {
    FamilyNames();
    PlainLabels();
    RequestLineSays(Method(), n);
    CounterIsLine(REQUESTS, Method(), n);
  }

  lemma GoodErrors(n: nat)
    requires n < U64Bound()
    ensures Good(ErrorLine(n), GbtErrors(n))
  {
    FamilyNames();
    PlainLabels();
    ErrorLineSays(Method(), n);
    CounterIsLine(ERRORS, Method(), n);
  }

  lemma GoodBuild()
    ensures Good(Last(), Version("1"))
  {
    FamilyNames();
    PlainLabels();
    ZebradLineSays([("version", "1")], 1);
    CounterIsLine(ZEBRAD_BUILD, [("version", "1")], 1);
  }

  lemma PlainLabels()
    ensures ArePlain(Method()) && ArePlain([("version", "1")])
    ensures Watched(Method()) && VersionReading([("version", "1")]) == Version("1")
  {
  }

  function Head(first: string): seq<string> {
    [first, GaugeLine(VERIFIED_OLD, 1)]
  }

  function Gauges(): seq<string> {
    [GaugeLine(NETWORK_TIP, 1), GaugeLine(DISTANCE, 0), GaugeLine(RPC_ACTIVE, 0), GaugeLine(GOSSIP, 0)]
  }

  function Others(): seq<string> {
    [GaugeLine(MEMPOOL_SIZE, 0),
     RequestLine(1), ErrorLine(1), GaugeLine(PEERS, 8)]
  }

  function Middle(): seq<string> {
    Gauges() + Others()
  }

  function MiddleReadings(): seq<Reading> {
    [NetworkTip(1), DistanceToTip(0), RpcActive(0), GossipQueued(0)]
    + [MempoolTxs(0), GbtRequests(1), GbtErrors(1), Peers(8)]
  }

  function Last(): string {
    CounterLine(ZEBRAD_BUILD, [("version", "1")], 1)
  }

  // Eleven lines, the first of them free.
  function Page(first: string): seq<string> {
    Head(first) + Middle() + [Last()]
  }

  const FULL :=
    Snapshot(Some(1), Some(1), Some(0), Some(0), Some(1), Some(1), None, Some(0), Some(8), Some(0), None, Some("1"))

  // What the page says when its first line is about peers or requests.
  function Full(r: Reading): Snapshot {
    if r.GbtRequests? then FULL.(gbtRequestsTotal := Some(r.n + 1)) else FULL
  }

  predicate MayLead(r: Reading) {
    r.Peers? || r.GbtRequests?
  }

  ghost predicate AllGood(lines: seq<string>, rs: seq<Reading>) {
    |lines| == |rs| && forall i | 0 <= i < |lines| :: Good(lines[i], rs[i])
  }

  lemma FourGood(a: string, ra: Reading, b: string, rb: Reading, c: string, rc: Reading, d: string, rd: Reading)
    requires Good(a, ra) && Good(b, rb) && Good(c, rc) && Good(d, rd)
    ensures AllGood([a, b, c, d], [ra, rb, rc, rd])
  {
  }

  lemma GoodConcat(a: seq<string>, ra: seq<Reading>, b: seq<string>, rb: seq<Reading>)
    requires AllGood(a, ra) && AllGood(b, rb)
    ensures AllGood(a + b, ra + rb)
  {
  }

  lemma GoodMiddle()
    ensures AllGood(Middle(), MiddleReadings())
  {
    FirstFour();
    LastFour();
    GoodConcat(Gauges(), [NetworkTip(1), DistanceToTip(0), RpcActive(0), GossipQueued(0)],
               Others(), [MempoolTxs(0), GbtRequests(1), GbtErrors(1), Peers(8)]);
  }

  lemma FirstFour()
    ensures AllGood(Gauges(), [NetworkTip(1), DistanceToTip(0), RpcActive(0), GossipQueued(0)])
  {
    GoodSync();
    GoodGauges();
    FourGood(GaugeLine(NETWORK_TIP, 1), NetworkTip(1), GaugeLine(DISTANCE, 0), DistanceToTip(0),
             GaugeLine(RPC_ACTIVE, 0), RpcActive(0), GaugeLine(GOSSIP, 0), GossipQueued(0));
  }

  lemma LastFour()
    ensures AllGood(Others(), [MempoolTxs(0), GbtRequests(1), GbtErrors(1), Peers(8)])
  {
    GoodGauges();
    GoodRequests(1);
    GoodErrors(1);
    GoodPeers(8);
    FourGood(GaugeLine(MEMPOOL_SIZE, 0), MempoolTxs(0),
             RequestLine(1), GbtRequests(1),
             ErrorLine(1), GbtErrors(1),
             GaugeLine(PEERS, 8), Peers(8));
  }

  ghost predicate AllLines(lines: seq<string>) {
    forall i | 0 <= i < |lines| :: IsLine(lines[i])
  }

  lemma LinesOfParts(a: seq<string>, b: seq<string>, rs: seq<Reading>, last: string)
    requires AllLines(a) && AllGood(b, rs) && IsLine(last)
    ensures AllLines(a + b + [last])
  {
  }

  lemma PageHasLines(first: string)
    requires IsLine(first)
    ensures AllLines(Page(first))
  {
    HeightNames();
    GaugeIsLine(VERIFIED_OLD, 1);
    GoodMiddle();
    GoodBuild();
    LinesOfParts(Head(first), Middle(), MiddleReadings(), Last());
  }

  lemma OneLine(m: Snapshot, line: string)
    ensures Fold(m, [line]) == ParseLine(m, line)
  {
    assert [line][1..] == [];
  }

  lemma TwoLines(m: Snapshot, first: string, second: string)
    ensures Fold(m, [first, second]) == ParseLine(ParseLine(m, first), second)
  {
    assert [first, second][1..] == [second];
    OneLine(ParseLine(m, first), second);
  }

  lemma HeadFolds(first: string, r: Reading)
    requires Good(first, r) && MayLead(r)
    ensures Fold(EMPTY, Head(first)) == Merge(EMPTY, r).(verifiedHeight := Some(1))
  {
    HeightLines(Merge(EMPTY, r), 1);
    GoodThen(first, GaugeLine(VERIFIED_OLD, 1), r, Merge(EMPTY, r).(verifiedHeight := Some(1)));
  }

  lemma GoodThen(first: string, second: string, r: Reading, end: Snapshot)
    requires Good(first, r) && ParseLine(Merge(EMPTY, r), second) == end
    ensures Fold(EMPTY, [first, second]) == end
  {
    GoodOnce(EMPTY, first, r);
    TwoLines(EMPTY, first, second);
  }

  lemma MiddleMerges(m: Snapshot, r: Reading)
    requires MayLead(r) && m == Merge(EMPTY, r).(verifiedHeight := Some(1))
    ensures MergeAll(m, MiddleReadings()) == Full(r).(zebraVersion := None)
  {
    var a := Merge(Merge(Merge(Merge(m, NetworkTip(1)), DistanceToTip(0)), RpcActive(0)), GossipQueued(0));
    var b := Merge(Merge(Merge(Merge(a, MempoolTxs(0)), GbtRequests(1)), GbtErrors(1)), Peers(8));
    assert b == Full(r).(zebraVersion := None);
  }

  lemma FrontFolds(first: string, r: Reading)
    requires Good(first, r) && MayLead(r)
    ensures Fold(EMPTY, Head(first) + Middle()) == Full(r).(zebraVersion := None)
  {
    FoldConcat(EMPTY, Head(first), Middle());
    HeadFolds(first, r);
    MiddleFolds(Fold(EMPTY, Head(first)), r);
  }

  lemma MiddleFolds(m: Snapshot, r: Reading)
    requires MayLead(r) && m == Merge(EMPTY, r).(verifiedHeight := Some(1))
    ensures Fold(m, Middle()) == Full(r).(zebraVersion := None)
  {
    GoodMiddle();
    LinesSay(m, Middle(), MiddleReadings());
    MiddleMerges(m, r);
  }

  lemma VersionFills(last: string, r: Reading)
    requires Good(last, Version("1"))
    ensures ParseLine(Full(r).(zebraVersion := None), last) == Full(r)
  {
    GoodOnce(Full(r).(zebraVersion := None), last, Version("1"));
  }

  lemma GoodOnce(m: Snapshot, line: string, r: Reading)
    requires Good(line, r)
    ensures ParseLine(m, line) == Merge(m, r)
  {
  }

  // The last line is the first to fill every target.
  lemma LastLineFills(front: seq<string>, last: string)
    requires !AllTargetsFilled(Fold(EMPTY, front))
    ensures FoldUntilFilled(EMPTY, front + [last]) == ParseLine(Fold(EMPTY, front), last)
    ensures Fold(EMPTY, front + [last]) == ParseLine(Fold(EMPTY, front), last)
  {
    NotStopped(EMPTY, front);
    FoldUntilConcat(EMPTY, front, [last]);
    FoldConcat(EMPTY, front, [last]);
    UntilOneLine(Fold(EMPTY, front), last);
    OneLine(Fold(EMPTY, front), last);
  }

  lemma UntilOneLine(m: Snapshot, line: string)
    ensures FoldUntilFilled(m, [line]) == ParseLine(m, line)
  {
    assert [line][1..] == [];
  }

  // The page in one chunk, with the beginning of a further line.
  function Chunk(first: string, tail: string): string {
    Unlines(Page(first)) + tail
  }

  // Such a chunk fills every target with the page's last line.
  lemma PageFills(first: string, r: Reading, tail: string)
    requires Good(first, r) && MayLead(r) && '\n' !in tail
    ensures Scan([Chunk(first, tail)]) == Full(r) && AllTargetsFilled(Full(r))
    ensures Fold(EMPTY, Lines(Chunk(first, tail))) == if tail == "" then Full(r) else ParseLine(Full(r), tail)
  {
    FrontFolds(first, r);
    GoodBuild();
    VersionFills(Last(), r);
    LastLineFills(Head(first) + Middle(), Last());
    ChunkLines(first, tail);
    OneChunk(Chunk(first, tail));
    LinesFold(Chunk(first, tail));
  }

  lemma ChunkLines(first: string, tail: string)
    requires IsLine(first) && '\n' !in tail
    ensures CompleteLines(Chunk(first, tail)) == Page(first) && Partial(Chunk(first, tail), '\n') == tail
  {
    PageHasLines(first);
    LinesComeBack(Page(first));
    TailIsUnfinished(Unlines(Page(first)), tail);
  }

  lemma TailIsUnfinished(text: string, tail: string)
    requires Partial(text, '\n') == "" && '\n' !in tail
    ensures CompleteLines(text + tail) == CompleteLines(text) && Partial(text + tail, '\n') == tail
  {
    assert tail[..|tail|] == tail && "" + tail == tail;
    IndexUnique(tail, '\n', |tail|);
    CompleteLinesOfConcat(text, tail);
    PartialOfConcat(text, tail, '\n');
    assert CompleteLines(text) + [] == CompleteLines(text);
  }

  lemma OneChunk(chunk: string)
    ensures Join([chunk]) == chunk && [chunk][..1 - 1] == [] && Join([]) == ""
    ensures Pending([chunk], 1) == chunk
  {
    assert [chunk][1..] == [];
    assert Partial("", '\n') == "";
  }

  lemma HeldChunk(first: string, tail: string)
    requires IsLine(first) && '\n' !in tail
    ensures Chunk(first, tail) == first + "\n" + (Unlines(Page(first)[1..]) + tail)
    ensures Partial(Unlines(Page(first)[1..]) + tail, '\n') == tail
  {
    PageHasLines(first);
    LinesComeBack(Page(first)[1..]);
    TailIsUnfinished(Unlines(Page(first)[1..]), tail);
    HeadOfUnlines(Page(first), tail);
  }

  lemma HeadOfUnlines(lines: seq<string>, tail: string)
    requires lines != []
    ensures Unlines(lines) + tail == lines[0] + "\n" + (Unlines(lines[1..]) + tail)
  {
  }

  // The scrape of one chunk that is enough to stop is one more parsed line.
  method ScrapeChunk(chunk: string) returns (m: Snapshot)
    requires AllTargetsFilled(Scan([chunk]))
    ensures m == ParseLine(Scan([chunk]), chunk)
  {
    OneChunk(chunk);
    var scrape := FetchZebraMetrics([chunk]);
    m := scrape.snapshot;
  }

  // The lines say 8 peers, to the loop and to the plain parser; the scrape says 7.
  method PeersGoBack() returns (m: Snapshot, ghost chunk: string)
    ensures chunk == Chunk(GaugeLine(PEERS, 7), "")
    ensures Scan([chunk]).peers == Some(8) && Fold(EMPTY, Lines(chunk)).peers == Some(8)
    ensures m == Scan([chunk]).(peers := Some(7))
  {
    var first := GaugeLine(PEERS, 7);
    GoodPeers(7);
    PageFills(first, Peers(7), "");
    chunk := Chunk(first, "");
    m := ScrapeChunk(Chunk(first, ""));
    HeldChunk(first, "");
    PeersRead(first, Unlines(Page(first)[1..]) + "");
  }

  lemma PeersRead(first: string, rest: string)
    requires first == GaugeLine(PEERS, 7)
    ensures ParseLine(FULL, first + "\n" + rest) == FULL.(peers := Some(7))
  {
    GaugeNames();
    GaugeIsLine(PEERS, 7);
    GaugeOfLine(PEERS, 7);
    NameGivesReading(7);
    assert first[0] == PEERS[0];
    GaugeGoesBack(FULL, first, rest);
  }

  // The lines say 5 and 1 requests, to the loop and to the plain parser; the
  // scrape adds the 9 of an unfinished line about peers.
  method RequestsGrow() returns (m: Snapshot, ghost chunk: string)
    ensures chunk == Chunk(RequestLine(5), GaugeLine(PEERS, 9))
    ensures Scan([chunk]) == Full(GbtRequests(5)) && Scan([chunk]).gbtRequestsTotal == Some(6)
    ensures Fold(EMPTY, Lines(chunk)) == Full(GbtRequests(5)).(peers := Some(9))
    ensures m == Full(GbtRequests(5)).(gbtRequestsTotal := Some(15))
  {
    chunk := Chunk(RequestLine(5), GaugeLine(PEERS, 9));
    ChunkIsScanned(chunk);
    ChunkIsParsed(chunk);
    m := ScrapeChunk(Chunk(RequestLine(5), GaugeLine(PEERS, 9)));
  }

  lemma ChunkIsParsed(chunk: string)
    requires chunk == Chunk(RequestLine(5), GaugeLine(PEERS, 9))
    ensures Fold(EMPTY, Lines(chunk)) == Full(GbtRequests(5)).(peers := Some(9))
  {
    GoodRequests(5);
    NinePeers(Full(GbtRequests(5)), GaugeLine(PEERS, 9));
    PageFills(RequestLine(5), GbtRequests(5), GaugeLine(PEERS, 9));
  }

  lemma ChunkIsScanned(chunk: string)
    requires chunk == Chunk(RequestLine(5), GaugeLine(PEERS, 9))
    ensures Scan([chunk]) == Full(GbtRequests(5)) && AllTargetsFilled(Scan([chunk]))
    ensures ParseLine(Scan([chunk]), chunk) == Full(GbtRequests(5)).(gbtRequestsTotal := Some(15))
  {
    GoodRequests(5);
    GaugeNames();
    GaugeIsLine(PEERS, 9);
    PageFills(RequestLine(5), GbtRequests(5), GaugeLine(PEERS, 9));
    NineIsAdded(Full(GbtRequests(5)), RequestLine(5), GaugeLine(PEERS, 9));
    SixAndNine();
  }

  lemma SixAndNine()
    ensures Merge(Full(GbtRequests(5)), GbtRequests(9)) == Full(GbtRequests(5)).(gbtRequestsTotal := Some(15))
  {
  }

  lemma NineIsAdded(m: Snapshot, first: string, tail: string)
    requires AllTargetsFilled(m) && first == RequestLine(5) && IsLine(first)
    requires tail == GaugeLine(PEERS, 9) && '\n' !in tail
    ensures ParseLine(m, Chunk(first, tail)) == Merge(m, GbtRequests(9))
  {
    var more := Unlines(Page(first)[1..]) + tail;
    HeldChunk(first, tail);
    NineIsCounted(more, tail);
    FiveIsCounted(first);
    AddsReading(m, first, more, GbtRequests(9));
  }

  lemma NinePeers(m: Snapshot, tail: string)
    requires tail == GaugeLine(PEERS, 9)
    ensures tail != "" && '\n' !in tail && ParseLine(m, tail) == m.(peers := Some(9))
  {
    GoodPeers(9);
  }

  lemma NineIsCounted(more: string, tail: string)
    requires tail == GaugeLine(PEERS, 9) && Partial(more, '\n') == tail
    ensures Counted(more) == GbtRequests(9)
  {
    GaugeNames();
    CountComesBack(PEERS, 9);
  }

  // A held counter line adds the number of another metric, or nothing, but not
  // its own.
  lemma CounterAddsPeers(m: Snapshot, line: string, add: string)
    requires AllTargetsFilled(m)
    requires line == RequestLine(5) && add == GaugeLine(PEERS, 9)
    ensures ParseLine(m, line + "\n" + add) == Merge(m, GbtRequests(9))
    ensures ParseLine(m, line + "\n" + (add + "\n")) == m
  {
    FiveIsCounted(line);
    GaugeNames();
    OneUnfinished(PEERS, 9);
    AddsReading(m, line, add, GbtRequests(9));
    NothingUnfinished(add + "\n");
    AddsReading(m, line, add + "\n", Nothing);
    NothingMoves(m, ParseLine(m, line + "\n" + (add + "\n")));
  }

  lemma FiveIsCounted(line: string)
    requires line == RequestLine(5)
    ensures CountsRequests(line)
  {
    FamilyNames();
    PlainLabels();
    CounterLineParts(REQUESTS, Method(), 5, "method");
    CounterIsLine(REQUESTS, Method(), 5);
    CloseInLine(line, "method");
  }

  lemma NothingMoves(m: Snapshot, n: Snapshot)
    requires n == Merge(m, Nothing)
    ensures n == m
  {
  }

  lemma AddsReading(m: Snapshot, line: string, more: string, r: Reading)
    requires AllTargetsFilled(m) && CountsRequests(line) && Counted(more) == r
    ensures ParseLine(m, line + "\n" + more) == Merge(m, r)
  {
    CounterAddsLastNumber(m, line, more);
  }

  lemma CloseInLine(line: string, key: string)
    requires ExtractLabel(line, key).Some?
    ensures HasLine(line, '}')
  {
  }

  lemma OneUnfinished(name: string, n: nat)
    requires IsName(name) && n < U64Bound()
    ensures HeldCount(GaugeLine(name, n)) == Some(n)
  {
    var line := GaugeLine(name, n);
    GaugeIsLine(name, n);
    assert line[..|line|] == line;
    IndexUnique(line, '\n', |line|);
    CountComesBack(name, n);
  }
}
