// Reading the node's metrics page: crates/pool-api/src/zebra_metrics.rs.  Text
// is ASCII.  The streaming reader works on chunks and stops early; the plain
// parser works on the whole body.

module Metrics {
  import opened Common
  import opened Split

  // ----- reading values out of one line

  predicate IsSpace(c: char) {
    c == ' ' || '\t' <= c <= '\r'
  }

  function U64Bound(): nat { 0x1_0000_0000_0000_0000 }

  function Digits(s: string): Option<nat> {
    if s == "" then Some(0)
    else
      var last := s[|s| - 1];
      match Digits(s[..|s| - 1])
      case Some(n) => if '0' <= last <= '9' then Some(10 * n + (last as int - '0' as int)) else None
      case None => None
  }

  // str::parse::<u64>: an optional plus sign, then digits, below 2^64.
  function ParseU64(s: string): Option<nat> {
    var digits := if s != "" && s[0] == '+' then s[1..] else s;
    if digits == "" then None
    else
      match Digits(digits)
      case Some(n) => if n < U64Bound() then Some(n) else None
      case None => None
  }

  function SkipSpaces(s: string): string {
    if s != "" && IsSpace(s[0]) then SkipSpaces(s[1..]) else s
  }

  function Word(s: string): string {
    if s == "" || IsSpace(s[0]) then "" else [s[0]] + Word(s[1..])
  }

  // A line "name 12345": the first word after the name and one space.
  function UnlabeledU64(line: string, name: string): Option<nat> {
    if name + " " <= line then ParseU64(Word(SkipSpaces(line[|name| + 1..]))) else None
  }

  // The text after the last space.
  function TrailingU64(line: string): Option<nat> {
    if HasLine(line, ' ') then ParseU64(Partial(line, ' ')) else None
  }

  function TrimEndSpaces(s: string): string {
    if s != "" && IsSpace(s[|s| - 1]) then TrimEndSpaces(s[..|s| - 1]) else s
  }

  function Unquote(s: string): string {
    if s != "" && s[0] == '"' then Unquote(s[1..])
    else if s != "" && s[|s| - 1] == '"' then Unquote(s[..|s| - 1])
    else s
  }

  // The value of the key among comma-separated key=value pairs.
  function FindLabel(labels: string, key: string): Option<string>
    decreases |labels|
  {
    var comma := IndexOf(labels, ',');
    var pair := TrimEndSpaces(SkipSpaces(labels[..comma]));
    var eq := IndexOf(pair, '=');
    if eq < |pair| && pair[..eq] == key then Some(Unquote(pair[eq + 1..]))
    else if comma < |labels| then FindLabel(labels[comma + 1..], key)
    else None
  }

  function ExtractLabel(line: string, key: string): Option<string> {
    var open, close := IndexOf(line, '{'), IndexOf(line, '}');
    if open == |line| || close == |line| || close <= open then None
    else FindLabel(line[open + 1..close], key)
  }

  // ----- what one line says

  datatype Reading =
    | NetworkTip(n: nat)
    | DistanceToTip(n: nat)
    | RpcActive(n: nat)
    | VerifiedBlocks(n: nat)
    | GossipQueued(n: nat)
    | Peers(n: nat)
    | MempoolTxs(n: nat)
    | MempoolBytes(n: nat)
    | GbtRequests(n: nat)
    | GbtErrors(n: nat)
    | Version(v: string)
    | Nothing

  const VERIFIED_OLD := "zcash_chain_verified_block_height"
  const VERIFIED_NEW := "state_memory_best_committed_block_height"
  const NETWORK_TIP := "sync_estimated_network_tip_height"
  const DISTANCE := "sync_estimated_distance_to_tip"
  const RPC_ACTIVE := "rpc_active_requests"
  const VERIFIED_TOTAL := "zcash_chain_verified_block_total"
  const GOSSIP := "gossip_queued_block_count"
  const PEERS := "zcash_net_peers"
  const MEMPOOL_SIZE := "zcash_mempool_size_transactions"
  const MEMPOOL_QUEUED := "mempool_queued_transactions_total"
  const MEMPOOL_BYTES := "zcash_mempool_cost_bytes"

  // The plain gauges in the order they are tried, given the number found for a name.
  function GaugeBy(number: string -> Option<nat>): Reading {
    if number(NETWORK_TIP).Some? then NetworkTip(number(NETWORK_TIP).value)
    else if number(DISTANCE).Some? then DistanceToTip(number(DISTANCE).value)
    else if number(RPC_ACTIVE).Some? then RpcActive(number(RPC_ACTIVE).value)
    else if number(VERIFIED_TOTAL).Some? then VerifiedBlocks(number(VERIFIED_TOTAL).value)
    else if number(GOSSIP).Some? then GossipQueued(number(GOSSIP).value)
    else if number(PEERS).Some? then Peers(number(PEERS).value)
    else if number(MEMPOOL_SIZE).Some? then MempoolTxs(number(MEMPOOL_SIZE).value)
    else if number(MEMPOOL_QUEUED).Some? then MempoolTxs(number(MEMPOOL_QUEUED).value)
    else if number(MEMPOOL_BYTES).Some? then MempoolBytes(number(MEMPOOL_BYTES).value)
    else Nothing
  }

  function Gauge(line: string): Reading {
    GaugeBy(name => UnlabeledU64(line, name))
  }

  const REQUESTS := "rpc_requests_total"
  const ERRORS := "rpc_errors_total"
  const ZEBRAD_BUILD := "zebrad_build_info"
  const ZAKURA_BUILD := "zakura_build_info"

  // The labelled families, given the labels and the trailing number.
  function LabelledBy(line: string, value: string -> Option<string>, number: Option<nat>): Reading {
    if REQUESTS + "{" <= line then
      if value("method") == Some("getblocktemplate") && number.Some? then GbtRequests(number.value) else Nothing
    else if ERRORS + "{" <= line then
      if value("method") == Some("getblocktemplate") && number.Some? then GbtErrors(number.value) else Nothing
    else if ZEBRAD_BUILD + "{" <= line || ZAKURA_BUILD + "{" <= line then
      match value("version") case Some(v) => Version(v) case None => Nothing
    else Nothing
  }

  // They are tried when no gauge matches.
  function Labelled(line: string): Reading {
    LabelledBy(line, key => ExtractLabel(line, key), TrailingU64(line))
  }

  function Height(line: string): Option<nat> {
    if UnlabeledU64(line, VERIFIED_OLD).Some? then UnlabeledU64(line, VERIFIED_OLD)
    else UnlabeledU64(line, VERIFIED_NEW)
  }

  // What a line says apart from the verified height.
  function Rest(line: string): Reading {
    if Gauge(line) != Nothing then Gauge(line) else Labelled(line)
  }

  datatype Snapshot = Snapshot(
    verifiedHeight: Option<nat>,
    networkTipHeight: Option<nat>,
    distanceToTip: Option<nat>,
    rpcActiveRequests: Option<nat>,
    gbtRequestsTotal: Option<nat>,
    gbtErrorsTotal: Option<nat>,
    verifiedBlocksTotal: Option<nat>,
    gossipQueuedBlocks: Option<nat>,
    peers: Option<nat>,
    mempoolTxs: Option<nat>,
    mempoolBytes: Option<nat>,
    zebraVersion: Option<string>)

  const EMPTY := Snapshot(None, None, None, None, None, None, None, None, None, None, None, None)

  function OrZero(o: Option<nat>): nat {
    match o case Some(n) => n case None => 0
  }

  // Later gauges overwrite, counters add up.
  function Merge(m: Snapshot, r: Reading): Snapshot {
    match r
    case NetworkTip(n) => m.(networkTipHeight := Some(n))
    case DistanceToTip(n) => m.(distanceToTip := Some(n))
    case RpcActive(n) => m.(rpcActiveRequests := Some(n))
    case VerifiedBlocks(n) => m.(verifiedBlocksTotal := Some(n))
    case GossipQueued(n) => m.(gossipQueuedBlocks := Some(n))
    case Peers(n) => m.(peers := Some(n))
    case MempoolTxs(n) => m.(mempoolTxs := Some(n))
    case MempoolBytes(n) => m.(mempoolBytes := Some(n))
    case GbtRequests(n) => m.(gbtRequestsTotal := Some(OrZero(m.gbtRequestsTotal) + n))
    case GbtErrors(n) => m.(gbtErrorsTotal := Some(OrZero(m.gbtErrorsTotal) + n))
    case Version(v) => m.(zebraVersion := Some(v))
    case Nothing => m
  }

  predicate AllTargetsFilled(m: Snapshot) {
    && m.verifiedHeight.Some? && m.networkTipHeight.Some? && m.distanceToTip.Some?
    && m.rpcActiveRequests.Some? && m.gbtRequestsTotal.Some? && m.gbtErrorsTotal.Some?
    && m.gossipQueuedBlocks.Some? && m.peers.Some? && m.mempoolTxs.Some? && m.zebraVersion.Some?
  }

  // ----- lines and folds

  function Chop(line: string): string {
    if line != "" && line[|line| - 1] == '\r' then line[..|line| - 1] else line
  }

  // The lines that end in a newline, without their line endings.
  function CompleteLines(text: string): seq<string>
    decreases |text|
  {
    if HasLine(text, '\n') then [Chop(text[..IndexOf(text, '\n')])] + CompleteLines(After(text, '\n')) else []
  }

  // str::lines: also the last line when it has no newline.
  function Lines(text: string): seq<string> {
    CompleteLines(text) + (if Partial(text, '\n') == "" then [] else [Partial(text, '\n')])
  }

  function ParseLine(m: Snapshot, line: string): Snapshot {
    if line == "" || line[0] == '#' then m
    else if m.verifiedHeight == None && Height(line).Some? then m.(verifiedHeight := Height(line))
    else Merge(m, Rest(line))
  }

  function Fold(m: Snapshot, lines: seq<string>): Snapshot
    decreases lines
  {
    if lines == [] then m else Fold(ParseLine(m, lines[0]), lines[1..])
  }

  // The fold that stops at the first line after which every target is filled.
  function FoldUntilFilled(m: Snapshot, lines: seq<string>): Snapshot
    decreases lines
  {
    if lines == [] then m
    else
      var n := ParseLine(m, lines[0]);
      if AllTargetsFilled(n) then n else FoldUntilFilled(n, lines[1..])
  }

  function Join(chunks: seq<string>): string {
    if chunks == [] then "" else chunks[0] + Join(chunks[1..])
  }

  // ----- the code

  class ZebraMetrics {
    var snapshot: Snapshot

    constructor ()
      ensures snapshot == EMPTY
    {
      snapshot := EMPTY;
    }

    method ParseLineInto(line: string)
      modifies this
      ensures snapshot == ParseLine(old(snapshot), line)
    {
      if line == "" || line[0] == '#' {
        return;
      }
      if snapshot.verifiedHeight == None {
        var v := UnlabeledU64(line, VERIFIED_OLD);
        if v.Some? {
          snapshot := snapshot.(verifiedHeight := v);
          return;
        }
        v := UnlabeledU64(line, VERIFIED_NEW);
        if v.Some? {
          snapshot := snapshot.(verifiedHeight := v);
          return;
        }
      }
      snapshot := Merge(snapshot, Rest(line));
    }
  }
}
