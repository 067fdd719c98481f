/** Run-length and 12-bit packed sample encodings: what is accepted, what it decodes to, and what encodes it. */
module SampleCodecs {
  import opened Wrappers
  import opened FixedWidth
  import opened LittleEndian

  const LONGEST_RUN: nat := 65535

  type Item = Bytes

  datatype Run = Run(length: nat, item: Item)

  // --------------------------------------------------------------------- runs

  function Repeat(item: Item, n: nat): (items: seq<Item>)
    ensures |items| == n && forall k :: 0 <= k < n ==> items[k] == item
  {
    if n == 0 then [] else [item] + Repeat(item, n - 1)
  }

  function Items(runs: seq<Run>): seq<Item> {
    if runs == [] then [] else Repeat(runs[0].item, runs[0].length) + Items(runs[1..])
  }

  /** No empty run, and no run that its neighbour continues. */
  predicate Canonical(runs: seq<Run>) {
    && (forall k :: 0 <= k < |runs| ==> runs[k].length > 0)
    && (forall k :: 0 < k < |runs| ==> runs[k].item != runs[k - 1].item)
  }

  /** How many items at the front equal the first. */
  function Leading(items: seq<Item>): (n: nat)
    requires items != []
    ensures 1 <= n <= |items|
    ensures forall k :: 0 <= k < n ==> items[k] == items[0]
    ensures n < |items| ==> items[n] != items[0]
  {
    if |items| == 1 || items[1] != items[0] then 1 else 1 + Leading(items[1..])
  }

  /** The one way to cut items into runs none of which can be extended. */
  function MaximalRuns(items: seq<Item>): (runs: seq<Run>)
    ensures |runs| <= |items|
  {
    if items == [] then []
    else [Run(Leading(items), items[0])] + MaximalRuns(items[Leading(items)..])
  }

  lemma HeadRun(items: seq<Item>)
    requires items != []
    ensures var (n, runs) := (Leading(items), MaximalRuns(items));
            && runs == [Run(n, items[0])] + MaximalRuns(items[n..])
            && (n < |items| ==>
                  MaximalRuns(items[n..]) != [] && MaximalRuns(items[n..])[0].item == items[n] != items[0])
  {
    var rest := items[Leading(items)..];
    if rest != [] {
      assert MaximalRuns(rest)[0].item == rest[0];
    }
  }

  lemma {:induction false} MaximalRunsStandFor(items: seq<Item>)
    ensures Items(MaximalRuns(items)) == items
    decreases |items|
  {
    if items != [] {
      var n := Leading(items);
      HeadRun(items);
      MaximalRunsStandFor(items[n..]);
      hide MaximalRuns;
      var runs := MaximalRuns(items);
      assert runs[1..] == MaximalRuns(items[n..]);
      assert items == Repeat(items[0], n) + items[n..];
    }
  }

  lemma {:induction false} MaximalRunsAreCanonical(items: seq<Item>)
    ensures Canonical(MaximalRuns(items))
    decreases |items|
  {
    if items != [] {
      var n := Leading(items);
      HeadRun(items);
      MaximalRunsAreCanonical(items[n..]);
      if n == |items| {
        assert MaximalRuns(items[n..]) == [];
      }
      hide MaximalRuns, Leading;
      var (runs, rest) := (MaximalRuns(items), MaximalRuns(items[n..]));
      forall k | 0 < k < |runs|
        ensures runs[k].item != runs[k - 1].item
      {
        assert runs[k] == rest[k - 1];
        assert k > 1 ==> runs[k - 1] == rest[k - 2];
      }
    }
  }

  /** No run is longer than what it was cut from, and every run repeats one of its items. */
  lemma {:induction false} MaximalRunsWithin(items: seq<Item>, k: nat)
    requires k < |MaximalRuns(items)|
    ensures MaximalRuns(items)[k].length <= |items| && MaximalRuns(items)[k].item in items
    decreases |items|
  {
    var n := Leading(items);
    HeadRun(items);
    if k > 0 {
      MaximalRunsWithin(items[n..], k - 1);
      assert forall item :: item in items[n..] ==> item in items;
    }
  }

  lemma {:induction false} LeadingIs(items: seq<Item>, n: nat)
    requires 1 <= n <= |items|
    requires forall k :: 0 <= k < n ==> items[k] == items[0]
    requires n < |items| ==> items[n] != items[0]
    ensures Leading(items) == n
  {
    if |items| > 1 && items[1] == items[0] {
      LeadingIs(items[1..], n - 1);
    }
  }

  lemma LeadingOfRun(item: Item, n: nat, rest: seq<Item>)
    requires n > 0 && (rest != [] ==> rest[0] != item)
    ensures Leading(Repeat(item, n) + rest) == n
  {
    LeadingIs(Repeat(item, n) + rest, n);
  }

  /** The first of several canonical runs is as long as its items lead. */
  lemma FirstRun(runs: seq<Run>)
    requires Canonical(runs) && runs != []
    ensures Canonical(runs[1..])
    ensures var (items, n) := (Items(runs), runs[0].length);
            && items != [] && items[0] == runs[0].item
            && Leading(items) == n && items[n..] == Items(runs[1..])
  {
    var rest := runs[1..];
    assert forall k :: 0 < k < |rest| ==> rest[k] == runs[k + 1] && rest[k - 1] == runs[k];
    if rest != [] {
      assert Items(rest) == Repeat(rest[0].item, rest[0].length) + Items(rest[1..]);
      assert Items(rest)[0] == rest[0].item != runs[0].item;
    }
    LeadingOfRun(runs[0].item, runs[0].length, Items(rest));
  }

  /** Canonical runs are the maximal runs of what they stand for. */
  lemma {:induction false} CanonicalIsMaximal(runs: seq<Run>)
    requires Canonical(runs)
    ensures MaximalRuns(Items(runs)) == runs
  {
    if runs != [] {
      FirstRun(runs);
      CanonicalIsMaximal(runs[1..]);
      HeadRun(Items(runs));
      hide Canonical, Items, Leading, MaximalRuns;
      assert runs == [runs[0]] + runs[1..];
    }
  }

  // -------------------------------------------------------------------- bytes

  function Joined(items: seq<Item>): Bytes {
    if items == [] then [] else items[0] + Joined(items[1..])
  }

  predicate AllWide(items: seq<Item>, width: nat) {
    forall k :: 0 <= k < |items| ==> |items[k]| == width
  }

  lemma {:induction false} JoinedSplits(a: seq<Item>, b: seq<Item>)
    ensures Joined(a + b) == Joined(a) + Joined(b)
  {
    if a == [] {
      assert a + b == b;
    } else {
      JoinedSplits(a[1..], b);
      assert (a + b)[0] == a[0] && (a + b)[1..] == a[1..] + b;
      BytesRegroup(a[0], Joined(a[1..]), Joined(b));
    }
  }

  lemma BytesRegroup(a: Bytes, b: Bytes, c: Bytes)
    ensures a + (b + c) == (a + b) + c
  {
  }

  lemma {:induction false} JoinedLength(items: seq<Item>, width: nat)
    requires AllWide(items, width)
    ensures |Joined(items)| == |items| * width
  {
    if items != [] {
      JoinedLength(items[1..], width);
      assert |items| * width == |items[1..]| * width + width;
    }
  }

  /** Items of one width can be told apart in their bytes. */
  lemma {:induction false} JoinedInjective(a: seq<Item>, b: seq<Item>, width: nat)
    requires AllWide(a, width) && AllWide(b, width) && |a| == |b| && Joined(a) == Joined(b)
    ensures a == b
  {
    if a != [] {
      assert a[0] == Joined(a)[..width] && b[0] == Joined(b)[..width];
      assert Joined(a[1..]) == Joined(a)[width..] && Joined(b[1..]) == Joined(b)[width..];
      JoinedInjective(a[1..], b[1..], width);
      assert a == [a[0]] + a[1..] && b == [b[0]] + b[1..];
    }
  }

  function RunBytes(r: Run): Bytes {
    Encode(r.length, 2) + r.item
  }

  function EncodeRuns(runs: seq<Run>): Bytes {
    if runs == [] then [] else RunBytes(runs[0]) + EncodeRuns(runs[1..])
  }

  predicate Encodable(runs: seq<Run>, width: nat) {
    forall k :: 0 <= k < |runs| ==> runs[k].length <= LONGEST_RUN && |runs[k].item| == width
  }

  function ParseRuns(samples: Bytes, width: nat, n: nat): (runs: seq<Run>)
    requires |samples| == n * (2 + width)
    ensures |runs| == n
  {
    if n == 0 then []
    else
      Shorter(n, 2 + width);
      [Run(Decode(samples[..2]), samples[2..2 + width])] + ParseRuns(samples[2 + width..], width, n - 1)
  }

  lemma Shorter(n: nat, step: nat)
    requires n > 0
    ensures n * step == (n - 1) * step + step
  {
  }

  lemma CapacityOfTwo()
    ensures Capacity(2) == 65536
  {
  }

  lemma {:induction false} ParsedEncodes(samples: Bytes, width: nat, n: nat)
    requires |samples| == n * (2 + width)
    ensures Encodable(ParseRuns(samples, width, n), width) && EncodeRuns(ParseRuns(samples, width, n)) == samples
    decreases n
  {
    if n > 0 {
      Shorter(n, 2 + width);
      CapacityOfTwo();
      var rest := samples[2 + width..];
      ParsedEncodes(rest, width, n - 1);
      var runs := ParseRuns(samples, width, n);
      EncodeDecode(samples[..2]);
      assert runs[1..] == ParseRuns(rest, width, n - 1);
      assert samples == samples[..2] + samples[2..2 + width] + rest;
      forall k | 0 <= k < n
        ensures runs[k].length <= LONGEST_RUN && |runs[k].item| == width
      {
        assert k > 0 ==> runs[k] == ParseRuns(rest, width, n - 1)[k - 1];
      }
    }
  }

  lemma {:induction false} EncodedParses(runs: seq<Run>, width: nat)
    requires Encodable(runs, width)
    ensures |EncodeRuns(runs)| == |runs| * (2 + width)
    ensures ParseRuns(EncodeRuns(runs), width, |runs|) == runs
  {
    if runs != [] {
      Shorter(|runs|, 2 + width);
      CapacityOfTwo();
      EncodedParses(runs[1..], width);
      DecodeEncode(runs[0].length, 2);
      var s := EncodeRuns(runs);
      assert s[..2] == Encode(runs[0].length, 2) && s[2..2 + width] == runs[0].item;
      assert s[2 + width..] == EncodeRuns(runs[1..]);
      assert runs == [runs[0]] + runs[1..];
    }
  }

  lemma {:induction false} ItemsAreWide(runs: seq<Run>, width: nat)
    requires Encodable(runs, width)
    ensures AllWide(Items(runs), width)
  {
    if runs != [] {
      ItemsAreWide(runs[1..], width);
    }
  }

  // ------------------------------------------------------------- the checker

  /** What the checker accepts as run-length samples of `count` items. */
  predicate RleAccepted(count: nat, width: nat, runs: nat, samples: Bytes) {
    && 1 <= runs <= count
    && |samples| == runs * (2 + width)
    && |samples| < count * width
    && Canonical(ParseRuns(samples, width, runs))
    && |Items(ParseRuns(samples, width, runs))| == count
  }

  lemma {:induction false} ItemsGrow(runs: seq<Run>, n: nat)
    requires n <= |runs|
    ensures Items(runs) == Items(runs[..n]) + Items(runs[n..])
  {
    if n == 0 {
      assert runs[..0] == [] && runs[0..] == runs;
    } else {
      ItemsGrow(runs[1..], n - 1);
      assert runs[1..][..n - 1] == runs[..n][1..] && runs[1..][n - 1..] == runs[n..];
    }
  }

  lemma RunsOfTail(samples: Bytes, width: nat, runs: nat, k: nat)
    requires |samples| == runs * (2 + width) && k < runs
    ensures 2 + width <= |samples| && |samples[2 + width..]| == (runs - 1) * (2 + width)
    ensures ParseRuns(samples, width, runs)[k]
         == if k == 0 then Run(Decode(samples[..2]), samples[2..2 + width])
            else ParseRuns(samples[2 + width..], width, runs - 1)[k - 1]
  {
    hide Decode;
    Shorter(runs, 2 + width);
  }

  /** The `k`-th run as it stands in the bytes, `at` being `k` records in. */
  lemma {:induction false} ParsedAt(samples: Bytes, width: nat, runs: nat, k: nat, at: nat)
    requires |samples| == runs * (2 + width) && k < runs && at == k * (2 + width)
    ensures at + 2 + width <= |samples|
    ensures ParseRuns(samples, width, runs)[k] == Run(Decode(samples[at..at + 2]), samples[at + 2..at + 2 + width])
    decreases runs
  {
    RunsOfTail(samples, width, runs, k);
    hide ParseRuns, Decode;
    if k == 0 {
      NoRecords(2 + width);
    } else {
      Shorter(k, 2 + width);
      ParsedAt(samples[2 + width..], width, runs - 1, k - 1, at - (2 + width));
      RecordOfTail(samples, width, at);
    }
  }

  lemma RecordOfTail(samples: Bytes, width: nat, at: nat)
    requires 2 + width <= at && at + 2 + width <= |samples|
    ensures var (rest, from) := (samples[2 + width..], at - (2 + width));
            && rest[from..from + 2] == samples[at..at + 2]
            && rest[from + 2..from + 2 + width] == samples[at + 2..at + 2 + width]
  {
  }

  lemma NoRecords(step: nat)
    ensures 0 * step == 0
  {
  }

  lemma {:induction false} RepeatExtends(runs: seq<Run>, last: Run)
    ensures Items(runs + [last]) == Items(runs) + Repeat(last.item, last.length)
  {
    ItemsGrow(runs + [last], |runs|);
    assert (runs + [last])[..|runs|] == runs && (runs + [last])[|runs|..] == [last];
    assert [last][1..] == [];
    assert Items([last]) == Repeat(last.item, last.length) + Items([]);
  }

  /** The decoding loop of the checker. */
  method DecodeRle(count: nat, width: nat, runs: nat, samples: Bytes) returns (decoded: Option<Bytes>)
    requires width > 0
    ensures decoded.Some? <==> RleAccepted(count, width, runs, samples)
    ensures decoded.Some? ==> decoded.value == Joined(Items(ParseRuns(samples, width, runs)))
  {
    if !(1 <= runs <= count) || |samples| != runs * (2 + width) || |samples| >= count * width {
      return None;
    }
    ghost var parsed := ParseRuns(samples, width, runs);
    ParsedEncodes(samples, width, runs);
    var output: Bytes := [];
    var previous: Option<Item> := None;
    for k := 0 to runs
      invariant output == Joined(Items(parsed[..k])) && |output| == |Items(parsed[..k])| * width <= count * width
      invariant Canonical(parsed[..k])
      invariant previous == if k == 0 then None else Some(parsed[k - 1].item)
    {
      var offset := k * (2 + width);
      ParsedAt(samples, width, runs, k, offset);
      var length := Decode(samples[offset..offset + 2]);
      var item := samples[offset + 2..offset + 2 + width];
      RunsGrow(parsed, k, width);
      CanonicalGrows(parsed, k);
      var added := Joined(Repeat(item, length));
      if length == 0 || |output| + |added| > count * width || previous == Some(item) {
        RunIsRefused(parsed, k, count, width);
        return None;
      }
      output := output + added;
      previous := Some(item);
    }
    assert parsed[..runs] == parsed;
    SameCount(|Items(parsed)|, count, width);
    if |output| != count * width {
      return None;
    }
    return Some(output);
  }

  lemma CanonicalGrows(parsed: seq<Run>, k: nat)
    requires k < |parsed| && Canonical(parsed[..k])
    ensures Canonical(parsed[..k + 1]) <==>
              parsed[k].length > 0 && (k > 0 ==> parsed[k].item != parsed[k - 1].item)
  {
    var (before, after) := (parsed[..k], parsed[..k + 1]);
    assert forall j :: 0 <= j < k ==> after[j] == before[j];
    assert after[k] == parsed[k];
  }

  lemma Distributes(a: nat, b: nat, width: nat)
    ensures (a + b) * width == a * width + b * width
  {
  }

  lemma AtLeastOne(a: nat, width: nat)
    requires a > 0
    ensures a * width >= width
  {
  }

  lemma SameCount(m: nat, n: nat, width: nat)
    requires width > 0
    ensures m * width == n * width <==> m == n
    ensures m * width <= n * width <==> m <= n
  {
    if m < n {
      Distributes(m, n - m, width);
      AtLeastOne(n - m, width);
    } else if n < m {
      Distributes(n, m - n, width);
      AtLeastOne(m - n, width);
    }
  }

  lemma RunsGrow(parsed: seq<Run>, k: nat, width: nat)
    requires k < |parsed| && Encodable(parsed, width)
    ensures Joined(Items(parsed[..k + 1]))
         == Joined(Items(parsed[..k])) + Joined(Repeat(parsed[k].item, parsed[k].length))
    ensures |Items(parsed[..k + 1])| * width
         == |Items(parsed[..k])| * width + |Joined(Repeat(parsed[k].item, parsed[k].length))|
  {
    var (before, added) := (Items(parsed[..k]), Repeat(parsed[k].item, parsed[k].length));
    assert parsed[..k + 1] == parsed[..k] + [parsed[k]];
    RepeatExtends(parsed[..k], parsed[k]);
    JoinedSplits(before, added);
    JoinedLength(added, width);
    Distributes(|before|, |added|, width);
  }

  /** A run that is empty, continues the one before it, or overshoots, spoils the whole. */
  lemma RunIsRefused(parsed: seq<Run>, k: nat, count: nat, width: nat)
    requires k < |parsed| && width > 0
    requires || parsed[k].length == 0
             || (k > 0 && parsed[k].item == parsed[k - 1].item)
             || |Items(parsed[..k + 1])| * width > count * width
    ensures !(Canonical(parsed) && |Items(parsed)| == count)
  {
    ItemsGrow(parsed, k + 1);
    SameCount(|Items(parsed[..k + 1])|, count, width);
  }

  // ----------------------------------------------------------- main statements

  /** Accepted samples are exactly the maximal-run encoding of the items they decode to. */
  lemma AcceptedIsMaximal(count: nat, width: nat, runs: nat, samples: Bytes)
    requires RleAccepted(count, width, runs, samples)
    ensures var items := Items(ParseRuns(samples, width, runs));
            && AllWide(items, width)
            && samples == EncodeRuns(MaximalRuns(items)) && runs == |MaximalRuns(items)|
  {
    ParsedEncodes(samples, width, runs);
    CanonicalIsMaximal(ParseRuns(samples, width, runs));
    ItemsAreWide(ParseRuns(samples, width, runs), width);
  }

  /** Two accepted encodings of the same bytes are the same encoding. */
  lemma AcceptedIsUnique(count: nat, width: nat, runs: nat, samples: Bytes, runs': nat, samples': Bytes)
    requires RleAccepted(count, width, runs, samples) && RleAccepted(count, width, runs', samples')
    requires Joined(Items(ParseRuns(samples, width, runs))) == Joined(Items(ParseRuns(samples', width, runs')))
    ensures samples == samples' && runs == runs'
  {
    AcceptedIsMaximal(count, width, runs, samples);
    AcceptedIsMaximal(count, width, runs', samples');
    JoinedInjective(Items(ParseRuns(samples, width, runs)), Items(ParseRuns(samples', width, runs')), width);
  }

  /** A sequence of items has an accepted encoding exactly when its maximal-run encoding is strictly shorter; and then
      that is the one, and decodes back to the items. */
  lemma AcceptedExists(items: seq<Item>, width: nat)
    requires AllWide(items, width) && 1 <= |items| <= LONGEST_RUN
    ensures var best := MaximalRuns(items);
            && (RleAccepted(|items|, width, |best|, EncodeRuns(best)) <==> |EncodeRuns(best)| < |items| * width)
            && (RleAccepted(|items|, width, |best|, EncodeRuns(best)) ==>
                  Items(ParseRuns(EncodeRuns(best), width, |best|)) == items)
            && forall runs, samples ::
                 RleAccepted(|items|, width, runs, samples) && Items(ParseRuns(samples, width, runs)) == items ==>
                   runs == |best| && samples == EncodeRuns(best)
  {
    var best := MaximalRuns(items);
    MaximalRunsAreCanonical(items);
    MaximalRunsStandFor(items);
    forall k | 0 <= k < |best|
      ensures best[k].length <= LONGEST_RUN && |best[k].item| == width
    {
      MaximalRunsWithin(items, k);
    }
    EncodedParses(best, width);
    forall runs, samples |
      RleAccepted(|items|, width, runs, samples) && Items(ParseRuns(samples, width, runs)) == items
      ensures runs == |best| && samples == EncodeRuns(best)
    {
      AcceptedIsMaximal(|items|, width, runs, samples);
    }
  }

  /** The encoder's scan: one record whenever an item differs from the one before it, and one for the last run. */
  method EncodeRle(items: seq<Item>) returns (samples: Bytes, runs: nat)
    requires items != []
    ensures samples == EncodeRuns(MaximalRuns(items)) && runs == |MaximalRuns(items)|
  {
    hide MaximalRuns, EncodeRuns, RunBytes;
    samples, runs := [], 0;
    var start, length := 0, 1;
    ghost var all := EncodeRuns(MaximalRuns(items));
    assert items[0..] == items;
    for k := 1 to |items|
      invariant 0 <= start < k && length == k - start
      invariant forall j :: start <= j < k ==> items[j] == items[start]
      invariant all == samples + EncodeRuns(MaximalRuns(items[start..]))
      invariant |MaximalRuns(items)| == runs + |MaximalRuns(items[start..])|
    {
      if items[k - 1] == items[k] {
        length := length + 1;
      } else {
        RunEnds(items, start, k);
        samples := samples + RunBytes(Run(length, items[start]));
        runs := runs + 1;
        start, length := k, 1;
      }
    }
    RunEnds(items, start, |items|);
    NoRunsLeft();
    samples := samples + RunBytes(Run(length, items[start]));
    runs := runs + 1;
  }

  /** A run that ends at `end` is the first record of what is left. */
  lemma RunEnds(items: seq<Item>, start: nat, end: nat)
    requires start < end <= |items|
    requires forall j :: start <= j < end ==> items[j] == items[start]
    requires end < |items| ==> items[end] != items[start]
    ensures MaximalRuns(items[start..]) == [Run(end - start, items[start])] + MaximalRuns(items[end..])
    ensures EncodeRuns(MaximalRuns(items[start..]))
         == RunBytes(Run(end - start, items[start])) + EncodeRuns(MaximalRuns(items[end..]))
    ensures end == |items| ==> MaximalRuns(items[end..]) == []
  {
    var rest := items[start..];
    LeadingIs(rest, end - start);
    assert rest[end - start..] == items[end..];
    var runs := MaximalRuns(rest);
    assert runs[1..] == MaximalRuns(items[end..]);
  }

  lemma NoRunsLeft()
    ensures EncodeRuns([]) == []
  {
  }

  // ------------------------------------------------------------------- PACK12

  /** Two twelve-bit codes in three bytes. */
  datatype Codes = Codes(first: nat, second: nat)

  predicate TwelveBits(c: Codes) {
    c.first < 4096 && c.second < 4096
  }

  function UnpackGroup(a: u8, b: u8, c: u8): (codes: Codes)
    ensures TwelveBits(codes)
  {
    Codes(a + b % 16 * 256, b / 16 + c * 16)
  }

  function PackGroup(codes: Codes): (s: Bytes)
    requires TwelveBits(codes)
    ensures |s| == 3
  {
    [codes.first % 256, codes.first / 256 + codes.second % 16 * 16, codes.second / 16]
  }

  function UnpackAll(s: Bytes): (codes: seq<Codes>)
    requires |s| % 3 == 0
    ensures |codes| == |s| / 3 && forall k :: 0 <= k < |codes| ==> TwelveBits(codes[k])
  {
    if s == [] then [] else [UnpackGroup(s[0], s[1], s[2])] + UnpackAll(s[3..])
  }

  function PackAll(codes: seq<Codes>): (s: Bytes)
    requires forall k :: 0 <= k < |codes| ==> TwelveBits(codes[k])
    ensures |s| == 3 * |codes|
  {
    if codes == [] then [] else PackGroup(codes[0]) + PackAll(codes[1..])
  }

  lemma GroupRoundTrip(a: u8, b: u8, c: u8)
    ensures PackGroup(UnpackGroup(a, b, c)) == [a, b, c]
  {
    assert (a + b % 16 * 256) % 256 == a && (a + b % 16 * 256) / 256 == b % 16;
    assert (b / 16 + c * 16) % 16 == b / 16 && (b / 16 + c * 16) / 16 == c;
  }

  lemma CodesRoundTrip(codes: Codes)
    requires TwelveBits(codes)
    ensures var s := PackGroup(codes); UnpackGroup(s[0], s[1], s[2]) == codes
  {
    var (x, y) := (codes.first, codes.second);
    assert (x / 256 + y % 16 * 16) % 16 == x / 256 && (x / 256 + y % 16 * 16) / 16 == y % 16;
  }

  /** Every packed payload is the packing of the codes it unpacks to. */
  lemma {:induction false} PackedIsPacking(s: Bytes)
    requires |s| % 3 == 0
    ensures PackAll(UnpackAll(s)) == s
  {
    if s != [] {
      PackedIsPacking(s[3..]);
      GroupRoundTrip(s[0], s[1], s[2]);
      hide UnpackGroup, PackGroup;
      assert UnpackAll(s)[1..] == UnpackAll(s[3..]);
      assert s == [s[0], s[1], s[2]] + s[3..];
    }
  }

  /** Every sequence of pairs of twelve-bit codes unpacks from its packing. */
  lemma {:induction false} PackingUnpacks(codes: seq<Codes>)
    requires forall k :: 0 <= k < |codes| ==> TwelveBits(codes[k])
    ensures UnpackAll(PackAll(codes)) == codes
  {
    if codes != [] {
      PackingUnpacks(codes[1..]);
      CodesRoundTrip(codes[0]);
      hide UnpackGroup, PackGroup;
      var (head, packed) := (PackGroup(codes[0]), PackAll(codes));
      assert packed[..3] == head && packed[3..] == PackAll(codes[1..]);
      assert packed[0] == head[0] && packed[1] == head[1] && packed[2] == head[2];
      assert codes == [codes[0]] + codes[1..];
    }
  }

  /** The samples a packed payload decodes to: each code as a little-endian 16-bit value. */
  function SamplesOf(codes: seq<Codes>): Bytes {
    if codes == [] then []
    else Encode(codes[0].first, 2) + Encode(codes[0].second, 2) + SamplesOf(codes[1..])
  }

  /** Three packed bytes are one little-endian number: the first code in its low twelve bits, the second above. */
  lemma GroupIsNumber(a: u8, b: u8, c: u8)
    ensures var codes := UnpackGroup(a, b, c);
            Decode([a, b, c]) == codes.first + 4096 * codes.second
  {
    assert Decode([c]) == c + 256 * Decode([]);
    assert Decode([b, c]) == b + 256 * Decode([c]) by {
      assert [b, c][1..] == [c];
    }
    assert Decode([a, b, c]) == a + 256 * Decode([b, c]) by {
      assert [a, b, c][1..] == [b, c];
    }
  }

  /** So are the groups of a packed payload, one after the other. */
  lemma {:induction false} PackedGroupAt(s: Bytes, k: nat)
    requires |s| % 3 == 0 && k < |s| / 3
    ensures var codes := UnpackAll(s)[k];
            Decode(s[3 * k..3 * k + 3]) == codes.first + 4096 * codes.second
  {
    if k == 0 {
      GroupIsNumber(s[0], s[1], s[2]);
      assert s[..3] == [s[0], s[1], s[2]];
    } else {
      PackedGroupAt(s[3..], k - 1);
      assert s[3..][3 * (k - 1)..3 * (k - 1) + 3] == s[3 * k..3 * k + 3];
    }
  }

  lemma SliceOfTail(s: Bytes, n: nat, from: nat, to: nat)
    requires from <= to && n + to <= |s|
    ensures s[n..][from..to] == s[n + from..n + to]
  {
  }

  /** A group decodes to its two codes as little-endian sixteen-bit samples, the first code first. */
  lemma {:induction false} SamplesAt(codes: seq<Codes>, k: nat)
    requires k < |codes| && forall j :: 0 <= j < |codes| ==> TwelveBits(codes[j])
    ensures |SamplesOf(codes)| == 4 * |codes|
    ensures Decode(SamplesOf(codes)[4 * k..4 * k + 2]) == codes[k].first
    ensures Decode(SamplesOf(codes)[4 * k + 2..4 * k + 4]) == codes[k].second
  {
    CapacityOfTwo();
    var (s, rest) := (SamplesOf(codes), SamplesOf(codes[1..]));
    DecodeEncode(codes[0].first, 2);
    DecodeEncode(codes[0].second, 2);
    assert s[..2] == Encode(codes[0].first, 2) && s[2..4] == Encode(codes[0].second, 2) && s[4..] == rest;
    if k > 0 {
      SamplesAt(codes[1..], k - 1);
      hide Decode, Encode, SamplesOf;
      SliceOfTail(s, 4, 4 * (k - 1), 4 * (k - 1) + 2);
      SliceOfTail(s, 4, 4 * (k - 1) + 2, 4 * (k - 1) + 4);
    } else if |codes| > 1 {
      SamplesAt(codes[1..], 0);
    }
  }

  /** Packed payloads of equal length that decode to the same samples are equal. */
  lemma {:induction false} SamplesTellCodesApart(a: seq<Codes>, b: seq<Codes>)
    requires |a| == |b| && SamplesOf(a) == SamplesOf(b)
    requires forall k :: 0 <= k < |a| ==> TwelveBits(a[k]) && TwelveBits(b[k])
    ensures a == b
  {
    if a != [] {
      CapacityOfTwo();
      DecodeEncode(a[0].first, 2);
      DecodeEncode(b[0].first, 2);
      DecodeEncode(a[0].second, 2);
      DecodeEncode(b[0].second, 2);
      assert SamplesOf(a)[..2] == Encode(a[0].first, 2) && SamplesOf(b)[..2] == Encode(b[0].first, 2);
      assert SamplesOf(a)[2..4] == Encode(a[0].second, 2) && SamplesOf(b)[2..4] == Encode(b[0].second, 2);
      assert SamplesOf(a)[4..] == SamplesOf(a[1..]) && SamplesOf(b)[4..] == SamplesOf(b[1..]);
      SamplesTellCodesApart(a[1..], b[1..]);
      assert a == [a[0]] + a[1..] && b == [b[0]] + b[1..];
    }
  }
}
