// The streaming reader against the plain parser, for every way of cutting the
// body into chunks.

module MetricsStream {
  import opened Common
  import opened Split
  import opened Metrics

  // ----- folds over concatenated lines

  lemma {:induction false} FoldConcat(m: Snapshot, a: seq<string>, b: seq<string>)
    ensures Fold(m, a + b) == Fold(Fold(m, a), b)
    decreases a
  {
    if a == [] {
      assert a + b == b;
    } else {
      assert (a + b)[1..] == a[1..] + b;
      FoldConcat(ParseLine(m, a[0]), a[1..], b);
    }
  }

  lemma {:induction false} FoldUntilConcat(m: Snapshot, a: seq<string>, b: seq<string>)
    requires !AllTargetsFilled(m)
    ensures var n := FoldUntilFilled(m, a);
      FoldUntilFilled(m, a + b) == if AllTargetsFilled(n) then n else FoldUntilFilled(n, b)
    decreases a
  {
    if a == [] {
      assert a + b == b;
    } else {
      assert (a + b)[1..] == a[1..] + b;
      var n := ParseLine(m, a[0]);
      if !AllTargetsFilled(n) { FoldUntilConcat(n, a[1..], b); }
    }
  }

  lemma {:induction false} NeverFilledIsFold(m: Snapshot, lines: seq<string>)
    requires !AllTargetsFilled(FoldUntilFilled(m, lines))
    ensures FoldUntilFilled(m, lines) == Fold(m, lines)
    decreases lines
  {
    if lines != [] { NeverFilledIsFold(ParseLine(m, lines[0]), lines[1..]); }
  }

  // Text that arrives later only extends the unfinished last line.
  lemma {:induction false} CompleteLinesOfConcat(a: string, b: string)
    ensures CompleteLines(a + b) == CompleteLines(a) + CompleteLines(Partial(a, '\n') + b)
    decreases |a|
  {
    if HasLine(a, '\n') {
      HeadOfConcat(a, b, '\n');
      CompleteLinesOfConcat(After(a, '\n'), b);
      Associative([Chop(a[..IndexOf(a, '\n')])], CompleteLines(After(a, '\n')), CompleteLines(Partial(a, '\n') + b));
    } else {
      Associative([], [], CompleteLines(a + b));
    }
  }

  lemma Associative(a: seq<string>, b: seq<string>, c: seq<string>)
    ensures a + (b + c) == a + b + c && [] + c == c
  {
  }

  lemma CutWhereClean(front: string, back: string)
    requires Partial(front, '\n') == [] && !HasLine(back, '\n')
    ensures CompleteLines(front + back) == CompleteLines(front)
  {
    CompleteLinesOfConcat(front, back);
    assert [] + back == back;
    assert CompleteLines(front) + [] == CompleteLines(front);
  }

  // Cutting after the last newline loses no line.
  lemma CutAfterLastNewline(text: string)
    ensures var end := LastEnd(text, '\n');
      CompleteLines(text[..end]) == CompleteLines(text) && text[end..] == Partial(text, '\n')
  {
    var end := LastEnd(text, '\n');
    LastEndIsPartial(text, '\n');
    CutParts(text, text[..end], Partial(text, '\n'), end);
  }

  lemma CutParts(text: string, front: string, back: string, end: nat)
    requires end <= |text| && front == text[..end] && back == text[end..] && back == Partial(text, '\n')
    requires end > 0 ==> text[end - 1] == '\n'
    ensures CompleteLines(front) == CompleteLines(text)
  {
    PartialHasNone(text, '\n');
    EndsClean(text, end);
    CutWhereClean(front, back);
    assert text == front + back;
  }

  lemma EndsClean(text: string, end: nat)
    requires end <= |text| && (end > 0 ==> text[end - 1] == '\n')
    ensures Partial(text[..end], '\n') == []
  {
    LastEndIsPartial(text[..end], '\n');
  }

  lemma {:induction false} JoinAppend(chunks: seq<string>, chunk: string)
    ensures Join(chunks + [chunk]) == Join(chunks) + chunk
  {
    if chunks == [] {
      assert chunks + [chunk] == [chunk];
      assert Join([chunk]) == chunk + Join([]) == chunk;
    } else {
      assert (chunks + [chunk])[1..] == chunks[1..] + [chunk];
      JoinAppend(chunks[1..], chunk);
    }
  }

  // ----- the two readers

  method ParseUntilFilled(m: ZebraMetrics, lines: seq<string>) returns (filled: bool)
    requires !AllTargetsFilled(m.snapshot)
    modifies m
    ensures m.snapshot == FoldUntilFilled(old(m.snapshot), lines)
    ensures filled <==> AllTargetsFilled(m.snapshot)
  {
    for i := 0 to |lines|
      invariant !AllTargetsFilled(m.snapshot)
      invariant FoldUntilFilled(old(m.snapshot), lines) == FoldUntilFilled(m.snapshot, lines[i..])
    {
      assert lines[i..][1..] == lines[i + 1..];
      m.ParseLineInto(lines[i]);
      if AllTargetsFilled(m.snapshot) {
        return true;
      }
    }
    filled := false;
  }

  // What the lines of the chunks add up to, stopping once every target is filled.
  function Scan(chunks: seq<string>): Snapshot {
    FoldUntilFilled(EMPTY, CompleteLines(Join(chunks)))
  }

  // The text held when the k-th chunk has just been appended.
  function Pending(chunks: seq<string>, k: nat): string
    requires 0 < k <= |chunks|
  {
    Partial(Join(chunks[..k - 1]), '\n') + chunks[k - 1]
  }

  // The k-th chunk is the one that fills the last target.
  ghost predicate ExitsAt(chunks: seq<string>, k: nat) {
    0 < k <= |chunks| && !AllTargetsFilled(Scan(chunks[..k - 1])) && AllTargetsFilled(Scan(chunks[..k]))
  }

  lemma ScanNext(chunks: seq<string>, k: nat)
    requires 0 < k <= |chunks| && !AllTargetsFilled(Scan(chunks[..k - 1]))
    ensures Scan(chunks[..k]) == FoldUntilFilled(Scan(chunks[..k - 1]), CompleteLines(Pending(chunks, k)))
    ensures Partial(Join(chunks[..k]), '\n') == Partial(Pending(chunks, k), '\n')
  {
    var before := Join(chunks[..k - 1]);
    assert chunks[..k] == chunks[..k - 1] + [chunks[k - 1]];
    JoinAppend(chunks[..k - 1], chunks[k - 1]);
    CompleteLinesOfConcat(before, chunks[k - 1]);
    FoldUntilConcat(EMPTY, CompleteLines(before), CompleteLines(Pending(chunks, k)));
    PartialOfConcat(before, chunks[k - 1], '\n');
  }

  // Once every target is filled, the rest of the body does not matter.
  lemma {:induction false} ScanStops(chunks: seq<string>, k: nat)
    requires k <= |chunks| && AllTargetsFilled(Scan(chunks[..k]))
    ensures Scan(chunks) == Scan(chunks[..k])
    decreases |chunks| - k
  {
    if k == |chunks| {
      assert chunks[..k] == chunks;
    } else {
      assert chunks[..k + 1] == chunks[..k] + [chunks[k]];
      JoinAppend(chunks[..k], chunks[k]);
      CompleteLinesOfConcat(Join(chunks[..k]), chunks[k]);
      FoldUntilConcat(EMPTY, CompleteLines(Join(chunks[..k])),
                      CompleteLines(Partial(Join(chunks[..k]), '\n') + chunks[k]));
      ScanStops(chunks, k + 1);
    }
  }

  // The chunk loop.  Its accumulator depends on the body only, not on where the
  // chunks were cut; the held text is the unfinished line, unless the loop
  // stopped early in chunk k and still holds everything that chunk completed.
  method ReadLoop(chunks: seq<string>) returns (m: ZebraMetrics, leftover: string, earlyExit: bool, k: nat)
    ensures fresh(m) && m.snapshot == Scan(chunks)
    ensures earlyExit <==> AllTargetsFilled(Scan(chunks))
    ensures !earlyExit ==> leftover == Partial(Join(chunks), '\n')
    ensures earlyExit ==> ExitsAt(chunks, k) && leftover == Pending(chunks, k)
  {
    m := new ZebraMetrics();
    leftover, k := "", 0;
    while k < |chunks|
      invariant k <= |chunks| && fresh(m)
      invariant m.snapshot == Scan(chunks[..k]) && !AllTargetsFilled(m.snapshot)
      invariant leftover == Partial(Join(chunks[..k]), '\n')
    {
      leftover := leftover + chunks[k];
      k := k + 1;
      ScanNext(chunks, k);
      CutAfterLastNewline(leftover);
      var lastNl := LastEnd(leftover, '\n');
      if lastNl > 0 {
        var complete, tail := leftover[..lastNl], leftover[lastNl..];
        var filled := ParseUntilFilled(m, CompleteLines(complete));
        if filled {
          ScanStops(chunks, k);
          return m, leftover, true, k;
        }
        leftover := tail;
      } else {
        assert leftover[..0] == "" && leftover[0..] == leftover;
      }
    }
    assert chunks[..k] == chunks;
    earlyExit := false;
  }

  // The whole scrape.  Without an early exit it is the plain parser.
  method FetchZebraMetrics(chunks: seq<string>) returns (m: ZebraMetrics)
    ensures !AllTargetsFilled(Scan(chunks)) ==> m.snapshot == Fold(EMPTY, Lines(Join(chunks)))
    ensures AllTargetsFilled(Scan(chunks)) ==>
      exists k | ExitsAt(chunks, k) :: m.snapshot == ParseLine(Scan(chunks), Pending(chunks, k))
  {
    var leftover, earlyExit, k;
    m, leftover, earlyExit, k := ReadLoop(chunks);
    if !earlyExit {
      NeverFilledIsFold(EMPTY, CompleteLines(Join(chunks)));
      LinesFold(Join(chunks));
    } else {
      PendingNotEmpty(chunks, k);
    }
    if leftover != "" {
      m.ParseLineInto(leftover);
    }
  }

  lemma LinesFold(body: string)
    ensures Fold(EMPTY, Lines(body)) ==
      var p := Partial(body, '\n'); var m := Fold(EMPTY, CompleteLines(body)); if p == "" then m else ParseLine(m, p)
  {
    var p := Partial(body, '\n');
    FoldConcat(EMPTY, CompleteLines(body), if p == "" then [] else [p]);
  }

  lemma PendingNotEmpty(chunks: seq<string>, k: nat)
    requires ExitsAt(chunks, k)
    ensures Pending(chunks, k) != ""
  {
    ScanNext(chunks, k);
  }

  method ParseZebraMetrics(body: string) returns (m: ZebraMetrics)
    ensures m.snapshot == Fold(EMPTY, Lines(body))
  {
    m := new ZebraMetrics();
    var lines := Lines(body);
    for i := 0 to |lines|
      invariant fresh(m) && Fold(EMPTY, lines) == Fold(m.snapshot, lines[i..])
    {
      assert lines[i..][1..] == lines[i + 1..];
      m.ParseLineInto(lines[i]);
    }
  }

  // ----- what the fold computes

  // A target once filled stays filled.
  lemma {:induction false} FilledStays(m: Snapshot, lines: seq<string>)
    requires AllTargetsFilled(m)
    ensures AllTargetsFilled(Fold(m, lines))
    decreases lines
  {
    if lines != [] {
      FilledByLine(m, lines[0]);
      FilledStays(ParseLine(m, lines[0]), lines[1..]);
    }
  }

  lemma FilledByLine(m: Snapshot, line: string)
    requires AllTargetsFilled(m)
    ensures AllTargetsFilled(ParseLine(m, line))
  {
    FilledByMerge(m, Rest(line));
  }

  lemma FilledByMerge(m: Snapshot, r: Reading)
    requires AllTargetsFilled(m)
    ensures AllTargetsFilled(Merge(m, r))
  {
  }

  // Ten fields are waited for; the block total and the mempool bytes are not.
  lemma TargetsExactly(m: Snapshot)
    ensures AllTargetsFilled(m) <==>
      && None !in [m.verifiedHeight, m.networkTipHeight, m.distanceToTip, m.rpcActiveRequests, m.gbtRequestsTotal,
                   m.gbtErrorsTotal, m.gossipQueuedBlocks, m.peers, m.mempoolTxs]
      && m.zebraVersion != None
    ensures AllTargetsFilled(m) == AllTargetsFilled(m.(verifiedBlocksTotal := None, mempoolBytes := None))
  {
  }

  // Blank lines and comments change nothing.
  lemma CommentLine(m: Snapshot, text: string)
    ensures ParseLine(m, "") == m && ParseLine(m, "#" + text) == m
  {
  }

  function FirstHeight(lines: seq<string>): Option<nat> {
    if lines == [] then None
    else if lines[0] != "" && lines[0][0] != '#' && Height(lines[0]).Some? then Height(lines[0])
    else FirstHeight(lines[1..])
  }

  // Whichever of the two names comes first gives the height for good.
  lemma {:induction false} FirstHeightWins(m: Snapshot, lines: seq<string>)
    ensures Fold(m, lines).verifiedHeight == if m.verifiedHeight.Some? then m.verifiedHeight else FirstHeight(lines)
    decreases lines
  {
    if lines != [] {
      OneHeightLine(m, lines[0]);
      FirstHeightWins(ParseLine(m, lines[0]), lines[1..]);
    }
  }

  lemma OneHeightLine(m: Snapshot, line: string)
    ensures ParseLine(m, line).verifiedHeight
         == if m.verifiedHeight.Some? then m.verifiedHeight else FirstHeight([line])
  {
    assert FirstHeight([line][1..]) == None;
    MergeKeepsHeight(m, Rest(line));
  }

  lemma MergeKeepsHeight(m: Snapshot, r: Reading)
    ensures Merge(m, r).verifiedHeight == m.verifiedHeight
  {
  }

  // What a line adds to the block template request counter.
  function Requests(line: string): Option<nat> {
    if line != "" && line[0] != '#' && Rest(line).GbtRequests? then Some(Rest(line).n) else None
  }

  function Plus(a: Option<nat>, b: Option<nat>): Option<nat> {
    if a == None then b else if b == None then a else Some(a.value + b.value)
  }

  function SumRequests(lines: seq<string>): Option<nat> {
    if lines == [] then None else Plus(Requests(lines[0]), SumRequests(lines[1..]))
  }

  // A line of the request family does not start with either height name.
  lemma RequestsAreNotHeights(line: string)
    requires REQUESTS + "{" <= line
    ensures Height(line) == None
  {
    assert line[0] == 'r';
    assert (VERIFIED_OLD + " ")[0] == 'z' && (VERIFIED_NEW + " ")[0] == 's';
  }

  lemma RequestsComeFromFamily(line: string)
    requires Rest(line).GbtRequests?
    ensures REQUESTS + "{" <= line
  {
  }

  // The counter is the sum over all label combinations of the method, whatever
  // else stands between them and whether or not the height is known yet.
  lemma {:induction false} RequestsAddUp(m: Snapshot, lines: seq<string>)
    ensures Fold(m, lines).gbtRequestsTotal == Plus(m.gbtRequestsTotal, SumRequests(lines))
    decreases lines
  {
    if lines != [] {
      OneRequestLine(m, lines[0]);
      RequestsAddUp(ParseLine(m, lines[0]), lines[1..]);
      PlusAssociative(m.gbtRequestsTotal, Requests(lines[0]), SumRequests(lines[1..]));
    }
  }

  lemma OneRequestLine(m: Snapshot, line: string)
    ensures ParseLine(m, line).gbtRequestsTotal == Plus(m.gbtRequestsTotal, Requests(line))
  {
    if Rest(line).GbtRequests? {
      RequestsComeFromFamily(line);
      RequestsAreNotHeights(line);
    }
    MergeAddsRequests(m, Rest(line));
  }

  lemma MergeAddsRequests(m: Snapshot, r: Reading)
    ensures Merge(m, r).gbtRequestsTotal == Plus(m.gbtRequestsTotal, if r.GbtRequests? then Some(r.n) else None)
  {
  }

  lemma PlusAssociative(a: Option<nat>, b: Option<nat>, c: Option<nat>)
    ensures Plus(a, Plus(b, c)) == Plus(Plus(a, b), c)
  {
  }

  function LastPeers(lines: seq<string>, before: Option<nat>): Option<nat>
    decreases lines
  {
    if lines == [] then before
    else LastPeers(lines[1..], if UnlabeledU64(lines[0], PEERS).Some? then UnlabeledU64(lines[0], PEERS) else before)
  }

  // A gauge holds the value of the last line with its name.
  lemma {:induction false} LastPeersWins(m: Snapshot, lines: seq<string>)
    ensures Fold(m, lines).peers == LastPeers(lines, m.peers)
    decreases lines
  {
    if lines != [] {
      OnePeersLine(m, lines[0]);
      LastPeersWins(ParseLine(m, lines[0]), lines[1..]);
    }
  }

  lemma OnePeersLine(m: Snapshot, line: string)
    ensures ParseLine(m, line).peers == if UnlabeledU64(line, PEERS).Some? then UnlabeledU64(line, PEERS) else m.peers
  {
    if UnlabeledU64(line, PEERS).Some? {
      PeersLine(line);
      PeersAreNotHeights(line);
    } else {
      NotPeersLine(line);
    }
    MergeSetsPeers(m, Rest(line));
  }

  lemma MergeSetsPeers(m: Snapshot, r: Reading)
    ensures Merge(m, r).peers == if r.Peers? then Some(r.n) else m.peers
  {
  }

  lemma NotPeersLine(line: string)
    requires UnlabeledU64(line, PEERS) == None
    ensures !Rest(line).Peers?
  {
  }

  lemma PeersAreNotHeights(line: string)
    requires PEERS + " " <= line
    ensures Height(line) == None && line != "" && line[0] != '#'
  {
    assert line[0] == 'z' && line[6] == 'n';
    assert (VERIFIED_OLD + " ")[6] == 'c' && (VERIFIED_NEW + " ")[0] == 's';
  }

  // The name decides which gauge a line is.
  lemma PeersLine(line: string)
    requires UnlabeledU64(line, PEERS).Some?
    ensures Gauge(line) == Peers(UnlabeledU64(line, PEERS).value)
  {
    assert line[0] == 'z' && line[6] == 'n';
    assert (NETWORK_TIP + " ")[0] == 's' && (DISTANCE + " ")[0] == 's' && (RPC_ACTIVE + " ")[0] == 'r';
    assert (VERIFIED_TOTAL + " ")[6] == 'c' && (GOSSIP + " ")[0] == 'g';
  }
}
