/** The cache of withdrawal bundles of one sidechain: bundle objects held by the cache and merged in place. */
module WithdrawalCache {
  import opened Numerals
  import opened Wrappers
  import opened WithdrawalEvents

  const VERIFICATION_PERIOD := 26300

  class Bundle {
    const m6id: string
    const blockHeight: nat
    var status: Status
    var sequenceNumber: nat
    var transactionHex: string

    constructor (e: Entry)
      ensures Value() == e
    {
      m6id, blockHeight := e.m6id, e.height;
      status, sequenceNumber, transactionHex := e.core.status, e.core.sequence, e.core.transaction;
    }

    ghost function Value(): Entry
      reads this
    {
      Entry(m6id, blockHeight, Core(status, sequenceNumber, transactionHex))
    }
  }

  ghost function Values(s: seq<Bundle>): (v: seq<Entry>)
    reads s
    ensures |v| == |s| && forall i :: 0 <= i < |s| ==> v[i] == s[i].Value()
  {
    seq(|s|, i requires 0 <= i < |s| reads s => s[i].Value())
  }

  predicate Distinct(s: seq<Bundle>) {
    forall i, j :: 0 <= i < j < |s| ==> s[i] != s[j]
  }

  method ProcessPegDataBlocks(blocks: seq<Item>) returns (bundles: seq<Bundle>)
    ensures Values(bundles) == Entries(blocks)
    ensures Distinct(bundles) && fresh(bundles)
  {
    hide BlockEntries, Entries;
    bundles := [];
    EntriesStep(blocks);
    for i := 0 to |blocks|
      invariant Values(bundles) == Entries(blocks[..i]) && Distinct(bundles) && fresh(bundles)
    {
      assert blocks[..i + 1][..i] == blocks[..i];
      EntriesStep(blocks[..i + 1]);
      if blocks[i].Block? {
        var more := ProcessBlock(blocks[i].height, blocks[i].events);
        ghost var before := Values(bundles);
        bundles := bundles + more;
        assert Values(bundles) == before + Values(more);
      }
    }
    assert blocks[..|blocks|] == blocks;
  }

  method ProcessBlock(height: nat, events: seq<Event>) returns (bundles: seq<Bundle>)
    ensures Values(bundles) == BlockEntries(height, events)
    ensures Distinct(bundles) && fresh(bundles)
  {
    bundles := [];
    for i := 0 to |events|
      invariant Values(bundles) == BlockEntries(height, events[..i]) && Distinct(bundles) && fresh(bundles)
    {
      assert events[..i + 1][..i] == events[..i];
      if events[i].Withdrawal? {
        var core := Core(Pending, 0, "");
        match events[i].kind {
          case SucceededEvent(sequence, transaction) =>
            core := Core(Succeeded, GetOr(sequence, 0), GetOr(transaction, ""));
          case FailedEvent => core := Core(Failed, 0, "");
          case SubmittedEvent =>
          case UnknownEvent =>
        }
        var bundle := new Bundle(Entry(events[i].m6id, height, core));
        bundles := bundles + [bundle];
      }
    }
    assert events[..|events|] == events;
  }

  /** The map's bundles, each under its own id and in the state that `known` records. */
  ghost predicate Shows(bundleMap: map<string, Bundle>, known: map<string, Entry>)
    reads bundleMap.Values
  {
    && bundleMap.Keys == known.Keys
    && forall id :: id in bundleMap ==> bundleMap[id].m6id == id && bundleMap[id].Value() == known[id]
  }

  method MergeBundles(existing: seq<Bundle>, added: seq<Bundle>) returns (result: seq<Bundle>)
    requires Distinct(added) && forall i, j :: 0 <= i < |existing| && 0 <= j < |added| ==> existing[i] != added[j]
    modifies existing, added
    ensures MergedRows(old(Values(existing)), old(Values(added)), Values(result))
    ensures forall i :: 0 <= i < |result| ==> result[i] in existing || result[i] in added
  {
    hide Scan, Fold, Shows, OneRowPerId;
    if existing == [] {
      return added;
    }
    var bundleMap := IndexBundles(existing);
    ghost var known := Fold(Scan(Values(existing)), Values(added));
    bundleMap := MergeInto(bundleMap, added, Scan(Values(existing)));
    result := Collect(bundleMap, known);
  }

  /** The loop over the new bundles. */
  method MergeInto(existing: map<string, Bundle>, added: seq<Bundle>, ghost known: map<string, Entry>)
    returns (bundleMap: map<string, Bundle>)
    requires Distinct(added) && Shows(existing, known)
    requires forall id, j :: id in existing && 0 <= j < |added| ==> existing[id] != added[j]
    modifies existing.Values, added
    ensures Shows(bundleMap, Fold(known, old(Values(added))))
    ensures forall id :: id in bundleMap ==> bundleMap[id] in existing.Values || bundleMap[id] in added
  {
    assert Fold(known, []) == known;
    hide Scan, Fold, Absorb, Shows;
    bundleMap := existing;
    ghost var addedValues := Values(added);
    assert addedValues[..0] == [];
    for i := 0 to |added|
      invariant Shows(bundleMap, Fold(known, addedValues[..i]))
      invariant forall id :: id in bundleMap ==> bundleMap[id] in existing.Values || bundleMap[id] in added
      invariant forall id, j :: id in bundleMap && i <= j < |added| ==> bundleMap[id] != added[j]
      invariant forall j :: i <= j < |added| ==> added[j].Value() == addedValues[j]
    {
      FoldStep(known, addedValues, i);
      assert forall j :: i <= j < |added| ==> added[j] !in bundleMap.Values;
      bundleMap := MergeOne(bundleMap, added[i], Fold(known, addedValues[..i]));
    }
    assert addedValues[..|added|] == addedValues;
  }

  /** The loop body: settle a known bundle in place, or add a new one. */
  method MergeOne(bundleMap: map<string, Bundle>, b: Bundle, ghost known: map<string, Entry>)
    returns (bundleMap': map<string, Bundle>)
    requires Shows(bundleMap, known) && forall id :: id in bundleMap ==> bundleMap[id] != b
    modifies bundleMap.Values
    ensures Shows(bundleMap', Absorb(known, old(b.Value())))
    ensures forall id :: id in bundleMap' ==>
      (if id in bundleMap then bundleMap'[id] == bundleMap[id] else bundleMap'[id] == b)
  {
    if b.m6id in bundleMap {
      bundleMap' := bundleMap;
      var existing := bundleMap[b.m6id];
      if b.status == Succeeded || b.status == Failed {
        existing.status := b.status;
        existing.sequenceNumber := b.sequenceNumber;
        existing.transactionHex := b.transactionHex;
      }
    } else {
      bundleMap' := bundleMap[b.m6id := b];
    }
  }

  method IndexBundles(existing: seq<Bundle>) returns (bundleMap: map<string, Bundle>)
    ensures Shows(bundleMap, Scan(Values(existing)))
    ensures forall id :: id in bundleMap ==> bundleMap[id] in existing
  {
    bundleMap := map[];
    ghost var values := Values(existing);
    for i := 0 to |existing|
      invariant Shows(bundleMap, Scan(values[..i]))
      invariant forall id :: id in bundleMap ==> bundleMap[id] in existing
    {
      assert values[..i + 1][..i] == values[..i];
      bundleMap := bundleMap[existing[i].m6id := existing[i]];
    }
    assert values[..|existing|] == values;
  }

  /** The map's bundles as a list, in whatever order the map yields them. */
  method Collect(bundleMap: map<string, Bundle>, ghost known: map<string, Entry>) returns (result: seq<Bundle>)
    requires Shows(bundleMap, known)
    ensures Scan(Values(result)) == known && OneRowPerId(Values(result))
    ensures forall i :: 0 <= i < |result| ==> result[i] in bundleMap.Values
  {
    hide Scan, OneRowPerId;
    result := [];
    ghost var scan: map<string, Entry> := map[];
    EmptyScan(Values(result));
    assert Values(result) == [];
    var left := bundleMap.Keys;
    while left != {}
      invariant left <= bundleMap.Keys && scan == Scan(Values(result)) && OneRowPerId(Values(result))
      invariant scan.Keys == known.Keys - left && forall id :: id in scan ==> scan[id] == known[id]
      invariant forall i :: 0 <= i < |result| ==> result[i] in bundleMap.Values
      decreases |left|
    {
      var id :| id in left;
      left := left - {id};
      ScanSnoc(Values(result), known[id]);
      OneMoreRow(Values(result), known[id]);
      assert Values(result + [bundleMap[id]]) == Values(result) + [known[id]];
      result := result + [bundleMap[id]];
      scan := scan[id := known[id]];
    }
  }

  datatype Aged = Aged(bundle: Entry, age: int, blocksLeft: int)

  /** Age and remaining blocks of a pending bundle; the subtraction is that of uint32. */
  function Age(e: Entry, currentHeight: nat): Aged {
    if e.core.status != Pending then Aged(e, 0, 0)
    else
      var age := (currentHeight - e.height) % UINT32;
      Aged(e, age, if age < VERIFICATION_PERIOD then VERIFICATION_PERIOD - age else 0)
  }

  /** Ages are computed on copies: the cached bundles keep their state. */
  method UpdateBundleAges(bundles: seq<Bundle>, currentHeight: nat) returns (result: seq<Aged>)
    ensures IsAged(result, bundles, currentHeight)
  {
    result := [];
    for i := 0 to |bundles|
      invariant |result| == i && forall j :: 0 <= j < i ==> result[j] == Age(bundles[j].Value(), currentHeight)
    {
      var b := bundles[i];
      var copy := Entry(b.m6id, b.blockHeight, Core(b.status, b.sequenceNumber, b.transactionHex));
      var age, blocksLeft := 0, 0;
      if copy.core.status == Pending {
        age := (currentHeight - copy.height) % UINT32;
        blocksLeft := if age < VERIFICATION_PERIOD then VERIFICATION_PERIOD - age else 0;
      }
      result := result + [Aged(copy, age, blocksLeft)];
    }
  }

  // ---------------------------------------------------------------- the cached listing

  datatype Tip = Tip(height: nat, hash: string)

  /** What the validator answers during one call; None where it fails or finds nothing. */
  datatype Answers = Answers(tip: Option<Tip>, activation: Option<nat>, activationHash: Option<string>,
                             pegData: (string, string) -> Option<seq<Item>>)

  datatype Cache = Cache(bundles: seq<Bundle>, lastBlockHash: string, lastBlockHeight: nat, activationHeight: nat)

  /** The cache without its objects: the rows it shows. */
  datatype View = View(rows: seq<Entry>, lastBlockHash: string, lastBlockHeight: nat, activationHeight: nat)

  /** What a call comes to: an error, the cached rows, or fetched entries merged into existing rows. */
  datatype Decision = Fail | Hit | Merge(existing: seq<Entry>, added: seq<Entry>)

  /** A hit on the same tip, an incremental fetch from the last cached block, or a full fetch. */
  function Decide(v: Option<View>, a: Answers): Decision {
    if a.tip.None? then Fail
    else if v.Some? && v.value.lastBlockHash == a.tip.value.hash then Hit
    else if a.activation.None? || a.tip.value.height < a.activation.value then Fail
    else
      var incremental := v.Some? && v.value.activationHeight == a.activation.value && v.value.lastBlockHeight > 0;
      if !incremental && a.activationHash.None? then Fail
      else
        var start := if incremental then v.value.lastBlockHash else a.activationHash.value;
        var data := a.pegData(start, a.tip.value.hash);
        if data.None? then Fail
        else Merge(if incremental then v.value.rows else [], Entries(data.value))
  }

  /** The view w after a call on view v, and whether the call succeeded. */
  ghost predicate Lists(v: Option<View>, a: Answers, w: Option<View>, ok: bool) {
    match Decide(v, a)
    case Fail => w == v && !ok
    case Hit => w == v && ok
    case Merge(existing, added) =>
      && ok && w.Some? && MergedRows(existing, added, w.value.rows)
      && w.value == View(w.value.rows, a.tip.value.hash, a.tip.value.height, a.activation.value)
  }

  class WithdrawalServer {
    var cache: Option<Cache>

    constructor ()
      ensures cache == None
    {
      cache := None;
    }

    ghost function Objects(): set<object>
      reads this
    {
      if cache.None? then {} else set b: Bundle | b in cache.value.bundles
    }

    ghost function Shown(): Option<View>
      reads this, Objects()
    {
      if cache.None? then None
      else
        var c := cache.value;
        Some(View(Values(c.bundles), c.lastBlockHash, c.lastBlockHeight, c.activationHeight))
    }

    method ListWithdrawals(a: Answers) returns (r: Option<seq<Aged>>)
      modifies this, Objects()
      ensures fresh(Objects() - old(Objects()))
      ensures Lists(old(Shown()), a, Shown(), r.Some?)
      ensures r.Some? ==> cache.Some? && a.tip.Some? && IsAged(r.value, cache.value.bundles, a.tip.value.height)
    {
      hide MergedRows, Entries;
      if a.tip.None? {
        return None;
      }
      var tip := a.tip.value;
      if cache.Some? && cache.value.lastBlockHash == tip.hash {
        var aged := UpdateBundleAges(cache.value.bundles, tip.height);
        return Some(aged);
      }
      if a.activation.None? || tip.height < a.activation.value {
        return None;
      }
      var activationHeight := a.activation.value;
      var startBlockHash, existing := "", [];
      if cache.Some? && cache.value.activationHeight == activationHeight && cache.value.lastBlockHeight > 0 {
        startBlockHash, existing := cache.value.lastBlockHash, cache.value.bundles;
      } else {
        if a.activationHash.None? {
          return None;
        }
        startBlockHash := a.activationHash.value;
      }
      var pegData := a.pegData(startBlockHash, tip.hash);
      if pegData.None? {
        return None;
      }
      var all := FetchAndMerge(existing, pegData.value);
      cache := Some(Cache(all, tip.hash, tip.height, activationHeight));
      var aged := UpdateBundleAges(all, tip.height);
      return Some(aged);
    }
  }

  ghost predicate IsAged(aged: seq<Aged>, bundles: seq<Bundle>, height: nat)
    reads bundles
  {
    |aged| == |bundles| && forall i :: 0 <= i < |aged| ==> aged[i] == Age(bundles[i].Value(), height)
  }

  method FetchAndMerge(existing: seq<Bundle>, items: seq<Item>) returns (all: seq<Bundle>)
    modifies existing
    ensures MergedRows(old(Values(existing)), Entries(items), Values(all))
    ensures forall i :: 0 <= i < |all| ==> all[i] in existing || fresh(all[i])
  {
    hide MergedRows, Entries;
    var added := ProcessPegDataBlocks(items);
    all := MergeBundles(existing, added);
  }

  lemma EntriesStep(items: seq<Item>)
    ensures Entries(items[..0]) == []
    ensures items != [] ==>
      var last := items[|items| - 1];
      var more := if last.Block? then BlockEntries(last.height, last.events) else [];
      Entries(items) == Entries(items[..|items| - 1]) + more
  {
  }

  lemma FoldStep(known: map<string, Entry>, s: seq<Entry>, i: nat)
    requires i < |s|
    ensures Fold(known, s[..i + 1]) == Absorb(Fold(known, s[..i]), s[i])
  {
    assert s[..i + 1][..i] == s[..i];
  }
}
