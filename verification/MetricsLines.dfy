// Lines of the metrics page as a node writes them, and what each of them says.

module MetricsLines {
  import opened Common
  import opened Split
  import opened Metrics
  import opened MetricsReread

  // ----- numbers

  function Decimal(n: nat): string {
    if n < 10 then ["0123456789"[n]] else Decimal(n / 10) + ["0123456789"[n % 10]]
  }

  lemma DigitOf(n: nat)
    requires n < 10
    ensures '0' <= "0123456789"[n] <= '9' && "0123456789"[n] as int - '0' as int == n
  {
  }

  lemma {:induction false} DecimalIsDigits(n: nat)
    ensures Decimal(n) != "" && forall i | 0 <= i < |Decimal(n)| :: '0' <= Decimal(n)[i] <= '9'
  {
    DigitOf(n % 10);
    if n >= 10 { DecimalIsDigits(n / 10); }
  }

  lemma {:induction false} DigitsOfDecimal(n: nat)
    ensures Digits(Decimal(n)) == Some(n)
  {
    DigitOf(n % 10);
    var s := Decimal(n);
    if n >= 10 {
      DigitsOfDecimal(n / 10);
      assert s[..|s| - 1] == Decimal(n / 10);
    } else {
      assert s[..|s| - 1] == "" && Digits("") == Some(0);
    }
  }

  // A written number is read back exactly when it fits in 64 bits.
  lemma DecimalComesBack(n: nat)
    ensures ParseU64(Decimal(n)) == if n < 18446744073709551616 then Some(n) else None
  {
    DecimalIsDigits(n);
    DigitsOfDecimal(n);
  }

  // A plus sign may stand before it.
  lemma PlusComesBack(n: nat)
    ensures ParseU64("+" + Decimal(n)) == if n < 18446744073709551616 then Some(n) else None
  {
    DecimalIsDigits(n);
    DigitsOfDecimal(n);
    assert ("+" + Decimal(n))[1..] == Decimal(n);
  }

  lemma {:induction false} OnlyDigitsCount(s: string, i: nat)
    requires Digits(s).Some? && i < |s|
    ensures '0' <= s[i] <= '9'
    decreases |s|
  {
    if i < |s| - 1 { OnlyDigitsCount(s[..|s| - 1], i); }
  }

  // Nothing else is a number.
  lemma OnlyNumbersParse(s: string, i: nat)
    requires ParseU64(s).Some? && i < |s|
    ensures '0' <= s[i] <= '9' || (i == 0 && s[0] == '+' && |s| > 1)
  {
    if s[0] == '+' {
      if i > 0 { OnlyDigitsCount(s[1..], i - 1); }
    } else {
      OnlyDigitsCount(s, i);
    }
  }

  lemma {:induction false} WordOfDigits(s: string, rest: string)
    requires forall i | 0 <= i < |s| :: '0' <= s[i] <= '9'
    requires rest == "" || IsSpace(rest[0])
    ensures Word(s + rest) == s
    decreases s
  {
    if s == "" {
      assert s + rest == rest;
    } else {
      assert (s + rest)[1..] == s[1..] + rest;
      WordOfDigits(s[1..], rest);
    }
  }

  lemma {:induction false} SkipBlanks(blanks: string, s: string)
    requires forall i | 0 <= i < |blanks| :: blanks[i] == ' ' || '\t' <= blanks[i] <= '\r'
    requires s != "" && '0' <= s[0] <= '9'
    ensures SkipSpaces(blanks + s) == s
    decreases blanks
  {
    if blanks == "" {
      assert blanks + s == s;
    } else {
      assert (blanks + s)[1..] == blanks[1..] + s;
      SkipBlanks(blanks[1..], s);
    }
  }

  // ----- gauges

  function GaugeLine(name: string, n: nat): string {
    name + " " + Decimal(n)
  }

  // The number behind a name and any blanks, up to the next blank.
  lemma NumberAmongBlanks(name: string, blanks: string, n: nat, rest: string)
    requires forall i | 0 <= i < |blanks| :: blanks[i] == ' ' || '\t' <= blanks[i] <= '\r'
    requires rest == "" || rest[0] == ' ' || '\t' <= rest[0] <= '\r'
    ensures UnlabeledU64(name + " " + (blanks + (Decimal(n) + rest)), name)
         == if n < 18446744073709551616 then Some(n) else None
  {
    var tail := blanks + (Decimal(n) + rest);
    var line := name + " " + tail;
    DecimalIsDigits(n);
    assert name + " " <= line && line[|name| + 1..] == tail;
    SkipBlanks(blanks, Decimal(n) + rest);
    WordOfDigits(Decimal(n), rest);
    DecimalComesBack(n);
  }

  // Another character behind the name, as before labels, is not a blank.
  lemma NameNeedsBlank(name: string, c: char, rest: string)
    requires c != ' '
    ensures UnlabeledU64(name + [c] + rest, name) == None
  {
    var line := name + [c] + rest;
    if name + " " <= line { assert line[|name|] == (name + " ")[|name|]; }
  }

  lemma NumberComesBack(name: string, n: nat, other: string)
    requires IsName(name) && IsName(other) && n < U64Bound()
    ensures UnlabeledU64(GaugeLine(name, n), other) == if other == name then Some(n) else None
  {
    var line := GaugeLine(name, n);
    assert name + " " <= line;
    if other + " " <= line { OneName(line, name, ' ', other, ' '); }
    assert line == name + " " + ("" + (Decimal(n) + ""));
    NumberAmongBlanks(name, "", n, "");
  }

  // ----- labels

  function LabelText(key: string, value: string): string {
    key + "=\"" + value + "\""
  }

  function LabelsText(labels: seq<(string, string)>): string {
    if labels == [] then ""
    else if |labels| == 1 then LabelText(labels[0].0, labels[0].1)
    else LabelText(labels[0].0, labels[0].1) + "," + LabelsText(labels[1..])
  }

  function CounterLine(family: string, labels: seq<(string, string)>, n: nat): string {
    family + "{" + LabelsText(labels) + "} " + Decimal(n)
  }

  // The value of the first label with the key.
  function Lookup(labels: seq<(string, string)>, key: string): Option<string> {
    if labels == [] then None
    else if labels[0].0 == key then Some(labels[0].1)
    else Lookup(labels[1..], key)
  }

  predicate IsPlainChar(c: char) {
    '!' <= c <= '~' && c != ',' && c != '=' && c != '"' && c != '{' && c != '}'
  }

  // Printable characters without a meaning in the format.
  ghost predicate IsPlain(s: string) {
    s != "" && forall i | 0 <= i < |s| :: IsPlainChar(s[i])
  }

  ghost predicate ArePlain(labels: seq<(string, string)>) {
    labels != [] && forall i | 0 <= i < |labels| :: IsPlain(labels[i].0) && IsPlain(labels[i].1)
  }

  lemma PlainHasNone(s: string, x: char)
    requires IsPlain(s) && !IsPlainChar(x)
    ensures x !in s
  {
  }

  lemma QuotesGone(value: string)
    requires IsPlain(value)
    ensures Unquote("\"" + value + "\"") == value
  {
    var quoted := "\"" + value + "\"";
    assert quoted[1..] == value + "\"" && (value + "\"")[..|value|] == value;
    assert Unquote(quoted) == Unquote(value + "\"") == Unquote(value);
  }

  lemma PairParts(key: string, value: string)
    requires IsPlain(key) && IsPlain(value)
    ensures var pair := LabelText(key, value);
      && pair[..|key|] == key && pair[|key| + 1..] == "\"" + value + "\""
      && !IsSpace(pair[0]) && !IsSpace(pair[|pair| - 1])
      && IndexOf(pair, '=') == |key| < |pair| && ',' !in pair && '}' !in pair && '{' !in pair
  {
    var pair := LabelText(key, value);
    PlainHasNone(key, ',');
    PlainHasNone(value, ',');
    PlainHasNone(key, '}');
    PlainHasNone(value, '}');
    PlainHasNone(key, '{');
    PlainHasNone(value, '{');
    PlainHasNone(key, '=');
    assert pair[..|key|] == key && pair[|key|] == '=';
    IndexUnique(pair, '=', |key|);
  }

  lemma NotTrimmed(s: string)
    requires s != "" && !IsSpace(s[0]) && !IsSpace(s[|s| - 1])
    ensures TrimEndSpaces(SkipSpaces(s)) == s
  {
  }

  // One step of the label search.
  lemma SearchStep(text: string, comma: nat, pair: string, eq: nat, wanted: string)
    requires IndexOf(text, ',') == comma && TrimEndSpaces(SkipSpaces(text[..comma])) == pair
    requires IndexOf(pair, '=') == eq < |pair|
    ensures pair[..eq] == wanted ==> FindLabel(text, wanted) == Some(Unquote(pair[eq + 1..]))
    ensures pair[..eq] != wanted && comma == |text| ==> FindLabel(text, wanted) == None
    ensures pair[..eq] != wanted && comma < |text| ==> FindLabel(text, wanted) == FindLabel(text[comma + 1..], wanted)
  {
  }

  lemma PlainPair(key: string, value: string, pair: string)
    requires IsPlain(key) && IsPlain(value) && pair == LabelText(key, value)
    ensures TrimEndSpaces(SkipSpaces(pair)) == pair && IndexOf(pair, '=') == |key| < |pair|
    ensures pair[..|key|] == key && Unquote(pair[|key| + 1..]) == value
  {
    PairParts(key, value);
    NotTrimmed(pair);
    QuotesGone(value);
  }

  // What labels are written as, they are read as.
  lemma {:induction false} LabelsComeBack(labels: seq<(string, string)>, key: string)
    requires ArePlain(labels)
    ensures FindLabel(LabelsText(labels), key) == Lookup(labels, key)
    decreases labels
  {
    var pair := LabelText(labels[0].0, labels[0].1);
    if |labels| == 1 {
      LastLabel(labels[0].0, labels[0].1, pair, key);
      assert Lookup(labels[1..], key) == None;
    } else {
      FirstLabel(labels[0].0, labels[0].1, pair, LabelsText(labels[1..]), key);
      LabelsComeBack(labels[1..], key);
    }
  }

  lemma LastLabel(key: string, value: string, pair: string, wanted: string)
    requires IsPlain(key) && IsPlain(value) && pair == LabelText(key, value)
    ensures FindLabel(pair, wanted) == if key == wanted then Some(value) else None
  {
    PairParts(key, value);
    PlainPair(key, value, pair);
    assert pair[..|pair|] == pair;
    IndexUnique(pair, ',', |pair|);
    SearchStep(pair, |pair|, pair, |key|, wanted);
  }

  lemma FirstLabel(key: string, value: string, pair: string, rest: string, wanted: string)
    requires IsPlain(key) && IsPlain(value) && pair == LabelText(key, value)
    ensures FindLabel(pair + "," + rest, wanted) == if key == wanted then Some(value) else FindLabel(rest, wanted)
  {
    var text := pair + "," + rest;
    PairParts(key, value);
    PlainPair(key, value, pair);
    assert text[..|pair|] == pair && text[|pair| + 1..] == rest;
    IndexUnique(text, ',', |pair|);
    SearchStep(text, |pair|, pair, |key|, wanted);
  }

  lemma {:induction false} LabelsHaveNoBrace(labels: seq<(string, string)>)
    requires ArePlain(labels)
    ensures '{' !in LabelsText(labels) && '}' !in LabelsText(labels)
    decreases labels
  {
    PairParts(labels[0].0, labels[0].1);
    if |labels| > 1 { LabelsHaveNoBrace(labels[1..]); }
  }

  // Without both braces, the closing one behind the opening one, there are no
  // labels.
  lemma NoBracesNoLabel(line: string, key: string)
    requires '{' !in line || '}' !in line || IndexOf(line, '}') < IndexOf(line, '{')
    ensures ExtractLabel(line, key) == None
  {
    if IndexOf(line, '{') < |line| { assert line[IndexOf(line, '{')] in line; }
    if IndexOf(line, '}') < |line| { assert line[IndexOf(line, '}')] in line; }
  }

  // ----- labelled lines

  lemma Braces(family: string, text: string, rest: string)
    requires IsName(family) && '{' !in text && '}' !in text
    ensures var line := family + "{" + text + "}" + rest;
      && IndexOf(line, '{') == |family| && IndexOf(line, '}') == |family| + 1 + |text| < |line|
      && line[|family| + 1..|family| + 1 + |text|] == text
  {
    var line := family + "{" + text + "}" + rest;
    assert line[..|family|] == family;
    IndexUnique(line, '{', |family|);
    assert line[..|family| + 1 + |text|] == family + "{" + text;
    IndexUnique(line, '}', |family| + 1 + |text|);
  }

  lemma LabelComesBack(family: string, labels: seq<(string, string)>, rest: string, key: string)
    requires IsName(family) && ArePlain(labels)
    ensures ExtractLabel(family + "{" + LabelsText(labels) + "}" + rest, key) == Lookup(labels, key)
  {
    LabelsHaveNoBrace(labels);
    LabelInText(family, LabelsText(labels), rest, key);
    LabelsComeBack(labels, key);
  }

  lemma LabelInText(family: string, text: string, rest: string, key: string)
    requires IsName(family) && '{' !in text && '}' !in text
    ensures ExtractLabel(family + "{" + text + "}" + rest, key) == FindLabel(text, key)
  {
    Braces(family, text, rest);
    LabelAt(family + "{" + text + "}" + rest, |family|, text, key);
  }

  lemma LabelAt(line: string, open: nat, text: string, key: string)
    requires open + 1 + |text| < |line| && line[open + 1..open + 1 + |text|] == text
    requires IndexOf(line, '{') == open && IndexOf(line, '}') == open + 1 + |text|
    ensures ExtractLabel(line, key) == FindLabel(text, key)
  {
    LabelBetween(line, open, open + 1 + |text|, key);
  }

  lemma CountComesBack(front: string, n: nat)
    requires n < U64Bound()
    ensures TrailingU64(front + " " + Decimal(n)) == Some(n)
  {
    DecimalIsDigits(n);
    DecimalComesBack(n);
    LastWord(front, Decimal(n));
  }

  lemma LastWord(front: string, word: string)
    requires ' ' !in word
    ensures TrailingU64(front + " " + word) == ParseU64(word)
  {
    assert word[..|word|] == word;
    IndexUnique(word, ' ', |word|);
    FoundAt(front + " " + word, |front|, ' ');
    PartialSkips(front + " ", word, ' ');
    PartialAfterBlank(front, word);
  }

  lemma PartialAfterBlank(front: string, word: string)
    ensures Partial(front + " ", ' ') + word == word
  {
    LastEndIsPartial(front + " ", ' ');
  }

  lemma CounterLineParts(family: string, labels: seq<(string, string)>, n: nat, key: string)
    requires IsName(family) && ArePlain(labels) && n < U64Bound()
    ensures var line := CounterLine(family, labels, n);
      && family + "{" <= line && line[0] == family[0]
      && ExtractLabel(line, key) == Lookup(labels, key) && TrailingU64(line) == Some(n)
  {
    CounterLineText(family, LabelsText(labels), Decimal(n));
    LabelComesBack(family, labels, " " + Decimal(n), key);
    CountComesBack(family + "{" + LabelsText(labels) + "}", n);
  }

  lemma CounterLineText(family: string, text: string, digits: string)
    requires family != ""
    ensures var line := family + "{" + text + "} " + digits;
      && family + "{" <= line && line[0] == family[0]
      && line == family + "{" + text + "}" + (" " + digits) && line == family + "{" + text + "}" + " " + digits
  {
  }

  // ----- what a written line says

  // The line has one meaning, to any snapshot.
  ghost predicate Says(line: string, r: Reading) {
    forall m :: ParseLine(m, line) == Merge(m, r)
  }

  lemma SaysItsReading(line: string)
    requires line != "" && line[0] != '#' && Height(line) == None
    ensures Says(line, Rest(line))
  {
  }

  lemma SaysOnce(m: Snapshot, line: string, r: Reading, n: Snapshot)
    requires Says(line, r) && Merge(m, r) == n
    ensures ParseLine(m, line) == n
  {
  }

  lemma HeightNames()
    ensures IsName(VERIFIED_OLD) && IsName(VERIFIED_NEW)
  {
    OldHeightIsName();
    NewHeightIsName();
  }

  lemma OldHeightIsName() ensures IsName(VERIFIED_OLD) {}
  lemma NewHeightIsName() ensures IsName(VERIFIED_NEW) {}

  // All names that mean something, spelled out.
  function KnownNames(): seq<string> {
    ["sync_estimated_network_tip_height", "sync_estimated_distance_to_tip", "rpc_active_requests",
     "zcash_chain_verified_block_total", "gossip_queued_block_count", "zcash_net_peers",
     "zcash_mempool_size_transactions", "mempool_queued_transactions_total", "zcash_mempool_cost_bytes",
     "zcash_chain_verified_block_height", "state_memory_best_committed_block_height"]
  }

  lemma KnownLengths()
    ensures |NETWORK_TIP| == 33 && NETWORK_TIP[0] == 's' && |DISTANCE| == 30 && |RPC_ACTIVE| == 19
    ensures |VERIFIED_TOTAL| == 32 && |GOSSIP| == 25 && |PEERS| == 15 && |MEMPOOL_SIZE| == 31
    ensures |MEMPOOL_QUEUED| == 33 && MEMPOOL_QUEUED[0] == 'm' && |MEMPOOL_BYTES| == 24
    ensures |VERIFIED_OLD| == 33 && VERIFIED_OLD[0] == 'z' && |VERIFIED_NEW| == 40
  {
  }

  lemma GaugeOfLine(name: string, n: nat)
    requires IsName(name) && n < U64Bound()
    ensures Gauge(GaugeLine(name, n)) == GaugeBy(other => if other == name then Some(n) else None)
  {
    GaugeNames();
    NumberComesBack(name, n, NETWORK_TIP);
    NumberComesBack(name, n, DISTANCE);
    NumberComesBack(name, n, RPC_ACTIVE);
    NumberComesBack(name, n, VERIFIED_TOTAL);
    NumberComesBack(name, n, GOSSIP);
    NumberComesBack(name, n, PEERS);
    NumberComesBack(name, n, MEMPOOL_SIZE);
    NumberComesBack(name, n, MEMPOOL_QUEUED);
    NumberComesBack(name, n, MEMPOOL_BYTES);
  }

  lemma NoLabels(name: string, n: nat)
    requires IsName(name)
    ensures Labelled(GaugeLine(name, n)) == Nothing
  {
    var line := GaugeLine(name, n);
    FamilyNames();
    assert name + " " <= line;
    if REQUESTS + "{" <= line { OneName(line, REQUESTS, '{', name, ' '); }
    if ERRORS + "{" <= line { OneName(line, ERRORS, '{', name, ' '); }
    if ZEBRAD_BUILD + "{" <= line { OneName(line, ZEBRAD_BUILD, '{', name, ' '); }
    if ZAKURA_BUILD + "{" <= line { OneName(line, ZAKURA_BUILD, '{', name, ' '); }
  }

  lemma GaugeLineSays(name: string, n: nat, r: Reading)
    requires IsName(name) && n < U64Bound() && name != VERIFIED_OLD && name != VERIFIED_NEW
    requires GaugeBy(other => if other == name then Some(n) else None) == r
    ensures Says(GaugeLine(name, n), r)
  {
    HeightNames();
    NumberComesBack(name, n, VERIFIED_OLD);
    NumberComesBack(name, n, VERIFIED_NEW);
    GaugeOfLine(name, n);
    NoLabels(name, n);
    assert GaugeLine(name, n)[0] == name[0];
    SaysItsReading(GaugeLine(name, n));
  }

  // The readings of a line on which the number stands for one name only.
  lemma NameGivesReading(n: nat)
    ensures GaugeBy(name => if name == NETWORK_TIP then Some(n) else None) == NetworkTip(n)
    ensures GaugeBy(name => if name == DISTANCE then Some(n) else None) == DistanceToTip(n)
    ensures GaugeBy(name => if name == RPC_ACTIVE then Some(n) else None) == RpcActive(n)
    ensures GaugeBy(name => if name == VERIFIED_TOTAL then Some(n) else None) == VerifiedBlocks(n)
    ensures GaugeBy(name => if name == GOSSIP then Some(n) else None) == GossipQueued(n)
    ensures GaugeBy(name => if name == PEERS then Some(n) else None) == Peers(n)
    ensures GaugeBy(name => if name == MEMPOOL_SIZE then Some(n) else None) == MempoolTxs(n)
    ensures GaugeBy(name => if name == MEMPOOL_QUEUED then Some(n) else None) == MempoolTxs(n)
    ensures GaugeBy(name => if name == MEMPOOL_BYTES then Some(n) else None) == MempoolBytes(n)
  {
    KnownLengths();
  }

  lemma NamesDiffer()
    ensures NETWORK_TIP != VERIFIED_OLD && DISTANCE != VERIFIED_OLD && RPC_ACTIVE != VERIFIED_OLD
    ensures VERIFIED_TOTAL != VERIFIED_OLD && GOSSIP != VERIFIED_OLD && PEERS != VERIFIED_OLD
    ensures MEMPOOL_SIZE != VERIFIED_OLD && MEMPOOL_QUEUED != VERIFIED_OLD && MEMPOOL_BYTES != VERIFIED_OLD
    ensures NETWORK_TIP != VERIFIED_NEW && DISTANCE != VERIFIED_NEW && RPC_ACTIVE != VERIFIED_NEW
    ensures VERIFIED_TOTAL != VERIFIED_NEW && GOSSIP != VERIFIED_NEW && PEERS != VERIFIED_NEW
    ensures MEMPOOL_SIZE != VERIFIED_NEW && MEMPOOL_QUEUED != VERIFIED_NEW && MEMPOOL_BYTES != VERIFIED_NEW
    ensures VERIFIED_OLD != VERIFIED_NEW
  {
    KnownLengths();
  }

  // Every gauge the snapshot has, under its written name.
  lemma SyncGauges(n: nat)
    requires n < U64Bound()
    ensures Says(GaugeLine("sync_estimated_network_tip_height", n), NetworkTip(n))
    ensures Says(GaugeLine("sync_estimated_distance_to_tip", n), DistanceToTip(n))
    ensures Says(GaugeLine("zcash_chain_verified_block_total", n), VerifiedBlocks(n))
  {
    GaugeNames();
    NamesDiffer();
    NameGivesReading(n);
    GaugeLineSays(NETWORK_TIP, n, NetworkTip(n));
    GaugeLineSays(DISTANCE, n, DistanceToTip(n));
    GaugeLineSays(VERIFIED_TOTAL, n, VerifiedBlocks(n));
  }

  lemma NodeGauges(n: nat)
    requires n < U64Bound()
    ensures Says(GaugeLine("rpc_active_requests", n), RpcActive(n))
    ensures Says(GaugeLine("gossip_queued_block_count", n), GossipQueued(n))
    ensures Says(GaugeLine("zcash_net_peers", n), Peers(n))
  {
    GaugeNames();
    NamesDiffer();
    NameGivesReading(n);
    GaugeLineSays(RPC_ACTIVE, n, RpcActive(n));
    GaugeLineSays(GOSSIP, n, GossipQueued(n));
    GaugeLineSays(PEERS, n, Peers(n));
  }

  lemma MempoolGauges(n: nat)
    requires n < U64Bound()
    ensures Says(GaugeLine("zcash_mempool_size_transactions", n), MempoolTxs(n))
    ensures Says(GaugeLine("mempool_queued_transactions_total", n), MempoolTxs(n))
    ensures Says(GaugeLine("zcash_mempool_cost_bytes", n), MempoolBytes(n))
  {
    GaugeNames();
    NamesDiffer();
    NameGivesReading(n);
    GaugeLineSays(MEMPOOL_SIZE, n, MempoolTxs(n));
    GaugeLineSays(MEMPOOL_QUEUED, n, MempoolTxs(n));
    GaugeLineSays(MEMPOOL_BYTES, n, MempoolBytes(n));
  }

  lemma OtherNamesSayNothing(name: string, n: nat)
    requires IsName(name) && n < U64Bound() && name !in KnownNames()
    ensures Says(GaugeLine(name, n), Nothing)
  {
    var known := KnownNames();
    assert known[0] == NETWORK_TIP && known[1] == DISTANCE && known[2] == RPC_ACTIVE && known[3] == VERIFIED_TOTAL;
    assert known[4] == GOSSIP && known[5] == PEERS && known[6] == MEMPOOL_SIZE && known[7] == MEMPOOL_QUEUED;
    assert known[8] == MEMPOOL_BYTES && known[9] == VERIFIED_OLD && known[10] == VERIFIED_NEW;
    assert GaugeBy(other => if other == name then Some(n) else None) == Nothing;
    GaugeLineSays(name, n, Nothing);
  }

  // Either name gives the height, once.
  lemma HeightLines(m: Snapshot, n: nat)
    requires n < U64Bound()
    ensures ParseLine(m, GaugeLine("zcash_chain_verified_block_height", n))
         == if m.verifiedHeight == None then m.(verifiedHeight := Some(n)) else m
    ensures ParseLine(m, GaugeLine("state_memory_best_committed_block_height", n))
         == if m.verifiedHeight == None then m.(verifiedHeight := Some(n)) else m
  {
    HeightNames();
    NamesDiffer();
    WrittenHeight(m, VERIFIED_OLD, n);
    WrittenHeight(m, VERIFIED_NEW, n);
  }

  lemma WrittenHeight(m: Snapshot, name: string, n: nat)
    requires IsName(name) && n < U64Bound() && (name == VERIFIED_OLD || name == VERIFIED_NEW)
    ensures ParseLine(m, GaugeLine(name, n)) == if m.verifiedHeight == None then m.(verifiedHeight := Some(n)) else m
  {
    HeightIsRead(name, n);
    HeightSaysNothing(name, n);
    assert GaugeLine(name, n)[0] == name[0];
    HeightOnce(m, GaugeLine(name, n), n);
  }

  lemma HeightIsRead(name: string, n: nat)
    requires IsName(name) && n < U64Bound() && (name == VERIFIED_OLD || name == VERIFIED_NEW)
    ensures Height(GaugeLine(name, n)) == Some(n)
  {
    HeightNames();
    NumberComesBack(name, n, VERIFIED_OLD);
    NumberComesBack(name, n, VERIFIED_NEW);
  }

  lemma HeightSaysNothing(name: string, n: nat)
    requires IsName(name) && n < U64Bound() && (name == VERIFIED_OLD || name == VERIFIED_NEW)
    ensures Rest(GaugeLine(name, n)) == Nothing
  {
    NamesDiffer();
    GaugeOfLine(name, n);
    NoLabels(name, n);
    assert GaugeBy(other => if other == name then Some(n) else None) == Nothing;
  }

  lemma HeightOnce(m: Snapshot, line: string, n: nat)
    requires line != "" && line[0] != '#' && Height(line) == Some(n) && Rest(line) == Nothing
    ensures ParseLine(m, line) == if m.verifiedHeight == None then m.(verifiedHeight := Some(n)) else m
  {
  }

  // The field that each gauge line sets; it sets nothing else.
  lemma TipLine(m: Snapshot, n: nat)
    requires n < 18446744073709551616
    ensures ParseLine(m, GaugeLine("sync_estimated_network_tip_height", n)) == m.(networkTipHeight := Some(n))
  {
    SyncGauges(n);
    SaysOnce(m, GaugeLine("sync_estimated_network_tip_height", n), NetworkTip(n), m.(networkTipHeight := Some(n)));
  }

  lemma DistanceLine(m: Snapshot, n: nat)
    requires n < 18446744073709551616
    ensures ParseLine(m, GaugeLine("sync_estimated_distance_to_tip", n)) == m.(distanceToTip := Some(n))
  {
    SyncGauges(n);
    SaysOnce(m, GaugeLine("sync_estimated_distance_to_tip", n), DistanceToTip(n), m.(distanceToTip := Some(n)));
  }

  lemma BlockTotalLine(m: Snapshot, n: nat)
    requires n < 18446744073709551616
    ensures ParseLine(m, GaugeLine("zcash_chain_verified_block_total", n)) == m.(verifiedBlocksTotal := Some(n))
  {
    SyncGauges(n);
    SaysOnce(m, GaugeLine("zcash_chain_verified_block_total", n), VerifiedBlocks(n),
             m.(verifiedBlocksTotal := Some(n)));
  }

  lemma ActiveLine(m: Snapshot, n: nat)
    requires n < 18446744073709551616
    ensures ParseLine(m, GaugeLine("rpc_active_requests", n)) == m.(rpcActiveRequests := Some(n))
  {
    NodeGauges(n);
    SaysOnce(m, GaugeLine("rpc_active_requests", n), RpcActive(n), m.(rpcActiveRequests := Some(n)));
  }

  lemma GossipLine(m: Snapshot, n: nat)
    requires n < 18446744073709551616
    ensures ParseLine(m, GaugeLine("gossip_queued_block_count", n)) == m.(gossipQueuedBlocks := Some(n))
  {
    NodeGauges(n);
    SaysOnce(m, GaugeLine("gossip_queued_block_count", n), GossipQueued(n), m.(gossipQueuedBlocks := Some(n)));
  }

  lemma PeerLine(m: Snapshot, n: nat)
    requires n < 18446744073709551616
    ensures ParseLine(m, GaugeLine("zcash_net_peers", n)) == m.(peers := Some(n))
  {
    NodeGauges(n);
    SaysOnce(m, GaugeLine("zcash_net_peers", n), Peers(n), m.(peers := Some(n)));
  }

  lemma MempoolSizeLine(m: Snapshot, n: nat)
    requires n < 18446744073709551616
    ensures ParseLine(m, GaugeLine("zcash_mempool_size_transactions", n)) == m.(mempoolTxs := Some(n))
  {
    MempoolGauges(n);
    SaysOnce(m, GaugeLine("zcash_mempool_size_transactions", n), MempoolTxs(n), m.(mempoolTxs := Some(n)));
  }

  lemma MempoolQueueLine(m: Snapshot, n: nat)
    requires n < 18446744073709551616
    ensures ParseLine(m, GaugeLine("mempool_queued_transactions_total", n)) == m.(mempoolTxs := Some(n))
  {
    MempoolGauges(n);
    SaysOnce(m, GaugeLine("mempool_queued_transactions_total", n), MempoolTxs(n), m.(mempoolTxs := Some(n)));
  }

  lemma MempoolCostLine(m: Snapshot, n: nat)
    requires n < 18446744073709551616
    ensures ParseLine(m, GaugeLine("zcash_mempool_cost_bytes", n)) == m.(mempoolBytes := Some(n))
  {
    MempoolGauges(n);
    SaysOnce(m, GaugeLine("zcash_mempool_cost_bytes", n), MempoolBytes(n), m.(mempoolBytes := Some(n)));
  }

  // ----- the counters and the version

  lemma FamilyLengths()
    ensures |REQUESTS| == 18 && |ERRORS| == 16 && |ZEBRAD_BUILD| == 17 == |ZAKURA_BUILD|
    ensures ZEBRAD_BUILD[1] == 'e' && ZAKURA_BUILD[1] == 'a'
  {
  }

  // A line starts with one family.
  lemma OneFamily(line: string, family: string, other: string)
    requires IsName(family) && IsName(other) && family + "{" <= line
    ensures other + "{" <= line <==> other == family
  {
    if other + "{" <= line { OneName(line, family, '{', other, '{'); }
  }

  lemma CounterLineSays(family: string, labels: seq<(string, string)>, n: nat, r: Reading)
    requires IsName(family) && ArePlain(labels) && n < U64Bound()
    requires Labelled(CounterLine(family, labels, n)) == r
    ensures Says(CounterLine(family, labels, n), r)
  {
    var line := CounterLine(family, labels, n);
    CounterLineParts(family, labels, n, "");
    HeightNames();
    FamilyIsNoName(line, family, VERIFIED_OLD);
    FamilyIsNoName(line, family, VERIFIED_NEW);
    NoGauge(line, family);
    SaysItsReading(line);
  }

  lemma NoGauge(line: string, family: string)
    requires IsName(family) && family + "{" <= line
    ensures Gauge(line) == Nothing
  {
    FamilyIsNoGauge(line, family);
  }

  predicate Watched(labels: seq<(string, string)>) {
    Lookup(labels, "method") == Some("getblocktemplate")
  }

  // A counter line adds its number when it is about the watched method, and
  // says nothing when it is about another.
  lemma RequestLineSays(labels: seq<(string, string)>, n: nat)
    requires ArePlain(labels) && n < U64Bound()
    ensures Says(CounterLine("rpc_requests_total", labels, n), if Watched(labels) then GbtRequests(n) else Nothing)
  {
    FamilyNames();
    CounterLineParts(REQUESTS, labels, n, "method");
    CounterLineSays(REQUESTS, labels, n, if Watched(labels) then GbtRequests(n) else Nothing);
  }

  lemma ErrorLineSays(labels: seq<(string, string)>, n: nat)
    requires ArePlain(labels) && n < U64Bound()
    ensures Says(CounterLine("rpc_errors_total", labels, n), if Watched(labels) then GbtErrors(n) else Nothing)
  {
    FamilyNames();
    FamilyLengths();
    CounterLineParts(ERRORS, labels, n, "method");
    OneFamily(CounterLine(ERRORS, labels, n), ERRORS, REQUESTS);
    CounterLineSays(ERRORS, labels, n, if Watched(labels) then GbtErrors(n) else Nothing);
  }

  function VersionReading(labels: seq<(string, string)>): Reading {
    match Lookup(labels, "version") case Some(v) => Version(v) case None => Nothing
  }

  // Either build line gives the version it is labelled with.
  lemma ZebradLineSays(labels: seq<(string, string)>, n: nat)
    requires ArePlain(labels) && n < U64Bound()
    ensures Says(CounterLine("zebrad_build_info", labels, n), VersionReading(labels))
  {
    FamilyNames();
    FamilyLengths();
    CounterLineParts(ZEBRAD_BUILD, labels, n, "version");
    OneFamily(CounterLine(ZEBRAD_BUILD, labels, n), ZEBRAD_BUILD, REQUESTS);
    OneFamily(CounterLine(ZEBRAD_BUILD, labels, n), ZEBRAD_BUILD, ERRORS);
    CounterLineSays(ZEBRAD_BUILD, labels, n, VersionReading(labels));
  }

  lemma ZakuraLineSays(labels: seq<(string, string)>, n: nat)
    requires ArePlain(labels) && n < U64Bound()
    ensures Says(CounterLine("zakura_build_info", labels, n), VersionReading(labels))
  {
    FamilyNames();
    FamilyLengths();
    CounterLineParts(ZAKURA_BUILD, labels, n, "version");
    OneFamily(CounterLine(ZAKURA_BUILD, labels, n), ZAKURA_BUILD, REQUESTS);
    OneFamily(CounterLine(ZAKURA_BUILD, labels, n), ZAKURA_BUILD, ERRORS);
    CounterLineSays(ZAKURA_BUILD, labels, n, VersionReading(labels));
  }

  lemma OtherFamiliesSayNothing(family: string, labels: seq<(string, string)>, n: nat)
    requires IsName(family) && ArePlain(labels) && n < U64Bound()
    requires family !in ["rpc_requests_total", "rpc_errors_total", "zebrad_build_info", "zakura_build_info"]
    ensures Says(CounterLine(family, labels, n), Nothing)
  {
    var four := ["rpc_requests_total", "rpc_errors_total", "zebrad_build_info", "zakura_build_info"];
    assert four[0] == REQUESTS && four[1] == ERRORS && four[2] == ZEBRAD_BUILD && four[3] == ZAKURA_BUILD;
    FamilyNames();
    CounterLineParts(family, labels, n, "");
    var line := CounterLine(family, labels, n);
    OneFamily(line, family, REQUESTS);
    OneFamily(line, family, ERRORS);
    OneFamily(line, family, ZEBRAD_BUILD);
    OneFamily(line, family, ZAKURA_BUILD);
    CounterLineSays(family, labels, n, Nothing);
  }

  function Count(o: Option<nat>, n: nat): Option<nat> {
    match o case None => Some(n) case Some(m) => Some(m + n)
  }

  // What the counter and version readings do to a snapshot.
  lemma CountersMerge(m: Snapshot, n: nat, v: string)
    ensures Merge(m, GbtRequests(n)) == m.(gbtRequestsTotal := Count(m.gbtRequestsTotal, n))
    ensures Merge(m, GbtErrors(n)) == m.(gbtErrorsTotal := Count(m.gbtErrorsTotal, n))
    ensures Merge(m, Version(v)) == m.(zebraVersion := Some(v))
    ensures Merge(m, Nothing) == m
  {
  }

  // ----- whole lists of counter lines

  datatype Entry = Request(labels: seq<(string, string)>, n: nat) | Failure(labels: seq<(string, string)>, n: nat)
  {
    ghost predicate Valid() { ArePlain(labels) && n < 18446744073709551616 }

    function Written(): string {
      CounterLine(if Request? then "rpc_requests_total" else "rpc_errors_total", labels, n)
    }
  }

  function WrittenLines(entries: seq<Entry>): seq<string> {
    seq(|entries|, i requires 0 <= i < |entries| => entries[i].Written())
  }

  // What the entries about the watched method add up to, if there are any.
  function Sum(entries: seq<Entry>, requests: bool, start: Option<nat>): Option<nat> {
    if entries == [] then start
    else
      var e := entries[0];
      Sum(entries[1..], requests, if e.Request? == requests && Watched(e.labels) then Count(start, e.n) else start)
  }

  lemma {:induction false} EntriesAddUp(m: Snapshot, entries: seq<Entry>)
    requires forall i | 0 <= i < |entries| :: entries[i].Valid()
    ensures Fold(m, WrittenLines(entries)) == m.(
      gbtRequestsTotal := Sum(entries, true, m.gbtRequestsTotal),
      gbtErrorsTotal := Sum(entries, false, m.gbtErrorsTotal))
    decreases entries
  {
    var lines := WrittenLines(entries);
    if entries != [] {
      var e := entries[0];
      assert lines[0] == e.Written() && lines[1..] == WrittenLines(entries[1..]);
      EntryCounts(m, e, lines[0]);
      EntriesAddUp(ParseLine(m, lines[0]), entries[1..]);
    }
  }

  lemma EntryCounts(m: Snapshot, e: Entry, line: string)
    requires e.Valid() && line == e.Written()
    ensures ParseLine(m, line) ==
      if !Watched(e.labels) then m
      else if e.Request? then m.(gbtRequestsTotal := Count(m.gbtRequestsTotal, e.n))
      else m.(gbtErrorsTotal := Count(m.gbtErrorsTotal, e.n))
  {
    CountersMerge(m, e.n, "");
    if e.Request? {
      RequestLineSays(e.labels, e.n);
      SaysOnce(m, line, if Watched(e.labels) then GbtRequests(e.n) else Nothing,
               Merge(m, if Watched(e.labels) then GbtRequests(e.n) else Nothing));
    } else {
      ErrorLineSays(e.labels, e.n);
      SaysOnce(m, line, if Watched(e.labels) then GbtErrors(e.n) else Nothing,
               Merge(m, if Watched(e.labels) then GbtErrors(e.n) else Nothing));
    }
  }

}
