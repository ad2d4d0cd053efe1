/**
  The discovery list of `BleScanManager`: every discovered peripheral
  replaces any earlier entry with the same identifier and goes to the end of
  `scanResults`. Starting and stopping the scan leave the list alone.
 */
module BleScan {
  import opened Wrappers
  import opened Transport

  /** `CBPeripheral`, identified by `identifier`; `name` stands for the rest of the object. */
  datatype Peripheral = Peripheral(identifier: PeripheralId, name: Option<string>)

  function Identifiers(s: seq<Peripheral>): set<PeripheralId>
  {
    set i | 0 <= i < |s| :: s[i].identifier
  }

  ghost predicate DistinctIdentifiers(s: seq<Peripheral>)
  {
    forall i, j :: 0 <= i < j < |s| ==> s[i].identifier != s[j].identifier
  }

  /** The number of entries of `s` whose identifier is `id`. */
  function Count(s: seq<Peripheral>, id: PeripheralId): nat
    decreases |s|
  {
    if s == [] then 0
    else Count(s[..|s| - 1], id) + (if s[|s| - 1].identifier == id then 1 else 0)
  }

  /** `s.filter { $0.identifier != id }`. */
  function WithoutId(s: seq<Peripheral>, id: PeripheralId): (r: seq<Peripheral>)
    ensures |r| <= |s|
    ensures forall q :: q in r ==> q in s && q.identifier != id
    decreases |s|
  {
    if s == [] then []
    else WithoutId(s[..|s| - 1], id) + (if s[|s| - 1].identifier == id then [] else [s[|s| - 1]])
  }

  /** The entries of `s` whose identifier is in `ids`, in their order in `s`. */
  function OnlyIds(s: seq<Peripheral>, ids: set<PeripheralId>): seq<Peripheral>
    decreases |s|
  {
    if s == [] then []
    else OnlyIds(s[..|s| - 1], ids) + (if s[|s| - 1].identifier in ids then [s[|s| - 1]] else [])
  }

  /** `scanResults` after `didDiscover` reports `p`. */
  function Discovered(s: seq<Peripheral>, p: Peripheral): (r: seq<Peripheral>)
    ensures |r| > 0 && r[|r| - 1] == p
    ensures forall q :: q in r[..|r| - 1] ==> q in s && q.identifier != p.identifier
  {
    WithoutId(s, p.identifier) + [p]
  }

  lemma IdentifiersSnoc(s: seq<Peripheral>, c: Peripheral)
    ensures Identifiers(s + [c]) == Identifiers(s) + {c.identifier}
  {
    var r := s + [c];
    forall x | x in Identifiers(r) ensures x in Identifiers(s) + {c.identifier} {
      var i :| 0 <= i < |r| && r[i].identifier == x;
      if i < |s| { assert s[i].identifier == x; }
    }
    forall x | x in Identifiers(s) ensures x in Identifiers(r) {
      var i :| 0 <= i < |s| && s[i].identifier == x;
      assert r[i].identifier == x;
    }
    assert r[|s|].identifier == c.identifier;
  }

  lemma DistinctSnoc(s: seq<Peripheral>, c: Peripheral)
    ensures DistinctIdentifiers(s + [c]) <==> DistinctIdentifiers(s) && c.identifier !in Identifiers(s)
  {
    var r := s + [c];
    if DistinctIdentifiers(r) {
      forall i, j | 0 <= i < j < |s| ensures s[i].identifier != s[j].identifier {
        assert r[i] == s[i] && r[j] == s[j];
      }
      forall i | 0 <= i < |s| ensures s[i].identifier != c.identifier {
        assert r[i] == s[i] && r[|s|] == c;
      }
    }
    if DistinctIdentifiers(s) && c.identifier !in Identifiers(s) {
      forall i, j | 0 <= i < j < |r| ensures r[i].identifier != r[j].identifier {
        if j == |s| { assert s[i].identifier in Identifiers(s); }
        else { assert r[i] == s[i] && r[j] == s[j]; }
      }
    }
  }

  lemma CountSnoc(s: seq<Peripheral>, c: Peripheral, x: PeripheralId)
    ensures Count(s + [c], x) == Count(s, x) + (if c.identifier == x then 1 else 0)
  {
  }

  lemma WithoutIdSnoc(s: seq<Peripheral>, c: Peripheral, id: PeripheralId)
    ensures WithoutId(s + [c], id) == WithoutId(s, id) + (if c.identifier == id then [] else [c])
  {
  }

  lemma OnlyIdsSnoc(s: seq<Peripheral>, c: Peripheral, ids: set<PeripheralId>)
    ensures OnlyIds(s + [c], ids) == OnlyIds(s, ids) + (if c.identifier in ids then [c] else [])
  {
  }

  /** An identifier is counted exactly when it occurs. */
  lemma {:induction false} CountZero(s: seq<Peripheral>, id: PeripheralId)
    ensures Count(s, id) == 0 <==> id !in Identifiers(s)
    decreases |s|
  {
    if s != [] {
      var init, c := s[..|s| - 1], s[|s| - 1];
      assert s == init + [c];
      CountZero(init, id);
      IdentifiersSnoc(init, c);
    }
  }

  /** A list repeats no identifier exactly when every identifier occurs at most once. */
  lemma {:induction false} DistinctByCount(s: seq<Peripheral>)
    ensures DistinctIdentifiers(s) <==> forall x :: Count(s, x) <= 1
    decreases |s|
  {
    if s != [] {
      var init, c := s[..|s| - 1], s[|s| - 1];
      assert s == init + [c];
      DistinctByCount(init);
      DistinctSnoc(init, c);
      CountZero(init, c.identifier);
      forall x ensures Count(s, x) == Count(init, x) + (if c.identifier == x then 1 else 0) {
        CountSnoc(init, c, x);
      }
      if DistinctIdentifiers(s) {
        forall x ensures Count(s, x) <= 1 {
          if x == c.identifier {
            assert Count(init, x) == 0;
          } else {
            assert Count(init, x) <= 1;
          }
        }
      } else if DistinctIdentifiers(init) {
        assert Count(s, c.identifier) == Count(init, c.identifier) + 1 > 1;
      } else {
        var x :| Count(init, x) > 1;
        assert Count(s, x) > 1;
      }
    }
  }

  /**
    Filtering out `id` removes every entry with that identifier and keeps the
    count of every other identifier.
   */
  lemma {:induction false} WithoutIdCounts(s: seq<Peripheral>, id: PeripheralId, x: PeripheralId)
    ensures Count(WithoutId(s, id), x) == if x == id then 0 else Count(s, x)
    ensures |WithoutId(s, id)| == |s| - Count(s, id)
    decreases |s|
  {
    if s != [] {
      var init, c := s[..|s| - 1], s[|s| - 1];
      assert s == init + [c];
      WithoutIdCounts(init, id, x);
      CountSnoc(init, c, x);
      CountSnoc(init, c, id);
      WithoutIdSnoc(init, c, id);
      if c.identifier != id {
        CountSnoc(WithoutId(init, id), c, x);
      } else {
        assert WithoutId(s, id) == WithoutId(init, id) + [];
        assert WithoutId(s, id) == WithoutId(init, id);
        assert Count(WithoutId(s, id), x) == Count(WithoutId(init, id), x);
        assert x != id ==> Count(s, x) == Count(init, x);
        assert Count(s, id) == Count(init, id) + 1;
      }
    }
  }

  /** Filtering out `id` keeps, in order, every entry whose identifier is in a set without `id`. */
  lemma {:induction false} WithoutIdKeepsOthers(s: seq<Peripheral>, id: PeripheralId, ids: set<PeripheralId>)
    requires id !in ids
    ensures OnlyIds(WithoutId(s, id), ids) == OnlyIds(s, ids)
    decreases |s|
  {
    if s != [] {
      var init, c := s[..|s| - 1], s[|s| - 1];
      assert s == init + [c];
      WithoutIdKeepsOthers(init, id, ids);
      OnlyIdsSnoc(init, c, ids);
      WithoutIdSnoc(init, c, id);
      if c.identifier != id {
        OnlyIdsSnoc(WithoutId(init, id), c, ids);
      } else {
        assert WithoutId(s, id) == WithoutId(init, id) + [];
        assert WithoutId(s, id) == WithoutId(init, id);
        assert OnlyIds(s, ids) == OnlyIds(init, ids) + [];
        assert OnlyIds(s, ids) == OnlyIds(init, ids);
      }
    }
  }

  /** After discovering `p`, exactly one entry carries `p`'s identifier, and it is `p`, at the end. */
  lemma DiscoveredOneEntryLast(s: seq<Peripheral>, p: Peripheral)
    ensures Count(Discovered(s, p), p.identifier) == 1
    ensures |Discovered(s, p)| > 0 && Discovered(s, p)[|Discovered(s, p)| - 1] == p
  {
    var r := Discovered(s, p);
    WithoutIdCounts(s, p.identifier, p.identifier);
    assert r[..|r| - 1] == WithoutId(s, p.identifier);
  }

  /** Entries with other identifiers are kept, and their relative order is unchanged. */
  lemma DiscoveredKeepsOthers(s: seq<Peripheral>, p: Peripheral, ids: set<PeripheralId>)
    requires p.identifier !in ids
    ensures OnlyIds(Discovered(s, p), ids) == OnlyIds(s, ids)
  {
    var r := Discovered(s, p);
    WithoutIdKeepsOthers(s, p.identifier, ids);
    assert r[..|r| - 1] == WithoutId(s, p.identifier);
  }

  /**
    A list with distinct identifiers keeps them distinct; it grows by one for
    a new peripheral and keeps its length for one already listed.
   */
  lemma DiscoveredDistinctAndLength(s: seq<Peripheral>, p: Peripheral)
    ensures DistinctIdentifiers(s) ==> DistinctIdentifiers(Discovered(s, p))
    ensures p.identifier !in Identifiers(s) ==> |Discovered(s, p)| == |s| + 1
    ensures DistinctIdentifiers(s) && p.identifier in Identifiers(s) ==> |Discovered(s, p)| == |s|
  {
    var r := Discovered(s, p);
    var w := WithoutId(s, p.identifier);
    WithoutIdCounts(s, p.identifier, p.identifier);
    CountZero(s, p.identifier);
    if DistinctIdentifiers(s) {
      DistinctByCount(s);
      assert Count(s, p.identifier) <= 1;
      forall x ensures Count(r, x) <= 1 {
        WithoutIdCounts(s, p.identifier, x);
        assert r[..|r| - 1] == w;
      }
      DistinctByCount(r);
    }
  }

  class BleScanManager {
    var scanResults: seq<Peripheral>
    /** Every request made of the central manager, oldest first. */
    var requests: seq<Request>

    ghost predicate Valid()
      reads this
    {
      DistinctIdentifiers(scanResults)
    }

    constructor ()
      ensures Valid() && scanResults == [] && requests == []
    {
      scanResults := [];
      requests := [];
    }

    /** `startScan`: scan with no service filter; the list is left alone. */
    method StartScan()
      requires Valid()
      modifies this
      ensures Valid()
      ensures requests == old(requests) + [ScanForPeripherals(None)]
      ensures scanResults == old(scanResults)
    {
      requests := requests + [ScanForPeripherals(None)];
    }

    /** `stopScan`: the list is left alone. */
    method StopScan()
      requires Valid()
      modifies this
      ensures Valid()
      ensures requests == old(requests) + [Transport.StopScan]
      ensures scanResults == old(scanResults)
    {
      requests := requests + [Transport.StopScan];
    }

    /** `centralManager(_:didDiscover:advertisementData:rssi:)`. */
    method DidDiscover(p: Peripheral)
      requires Valid()
      modifies this
      ensures Valid()
      ensures scanResults == Discovered(old(scanResults), p)
      ensures requests == old(requests)
    {
      DiscoveredDistinctAndLength(scanResults, p);
      var results := WithoutId(scanResults, p.identifier);
      results := results + [p];
      scanResults := results;
    }
  }
}
