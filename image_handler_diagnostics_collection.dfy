/**
 * The read-only collection of per-descriptor diagnostics and the queries the CLI and
 * the health check ask of it. Items are kept in descriptor order, worst to best, and
 * iterating the collection yields exactly `items`.
 */
module ImageHandlerDiagnosticsCollection {
  import opened PhpStrings
  import opened Sequences
  import opened ImageHandlerTypes

  datatype DiagnosticsCollection = DiagnosticsCollection(items: seq<Diagnostics>)

  function Name(h: Diagnostics): string
  {
    h.descriptor.driverName
  }

  // ----- array_filter over the items (order kept) -----

  function ReadyItems(items: seq<Diagnostics>): seq<Diagnostics>
  {
    if items == [] then []
    else
      var last := items[|items| - 1];
      ReadyItems(items[..|items| - 1]) + (if last.isReady then [last] else [])
  }

  function UnavailableItems(items: seq<Diagnostics>): seq<Diagnostics>
  {
    if items == [] then []
    else
      var last := items[|items| - 1];
      UnavailableItems(items[..|items| - 1]) + (if last.isReady then [] else [last])
  }

  function ReadyItemsNamed(items: seq<Diagnostics>, driverName: string): seq<Diagnostics>
  {
    if items == [] then []
    else
      var last := items[|items| - 1];
      ReadyItemsNamed(items[..|items| - 1], driverName)
      + (if Name(last) == driverName && last.isReady then [last] else [])
  }

  /** array_map of the driver names. */
  function DriverNameList(items: seq<Diagnostics>): (names: seq<string>)
    ensures |names| == |items|
    ensures forall i :: 0 <= i < |items| ==> names[i] == Name(items[i])
  {
    if items == [] then []
    else DriverNameList(items[..|items| - 1]) + [Name(items[|items| - 1])]
  }

  /** array_unique: keep the first occurrence of every value not yet in `seen`. */
  function UniqueAfter(s: seq<string>, seen: set<string>): seq<string>
  {
    if s == [] then []
    else if s[0] in seen then UniqueAfter(s[1..], seen)
    else [s[0]] + UniqueAfter(s[1..], seen + {s[0]})
  }

  // ----- the positions the queries are about -----

  function ReadyPositions(items: seq<Diagnostics>): set<int>
  {
    set i | 0 <= i < |items| && items[i].isReady
  }

  /** Position `k` holds the last ready item. */
  predicate LastReadyAt(items: seq<Diagnostics>, k: int)
  {
    0 <= k < |items| && items[k].isReady && forall j :: k < j < |items| ==> !items[j].isReady
  }

  // ----- the queries -----

  /** readyCount(): the number of ready items. */
  function ReadyCount(c: DiagnosticsCollection): (n: nat)
    ensures n == |ReadyPositions(c.items)|
    ensures n <= |c.items|
  {
    ReadyItemsCardinality(c.items);
    ReadyAndUnavailablePartition(c.items);
    |ReadyItems(c.items)|
  }

  /** unavailableCount(): the number of items that are not ready. */
  function UnavailableCount(c: DiagnosticsCollection): (n: nat)
    ensures n == |c.items| - ReadyCount(c)
  {
    ReadyAndUnavailablePartition(c.items);
    |UnavailableItems(c.items)|
  }

  /** driverNames(): each name once, in order of first occurrence. */
  function DriverNames(c: DiagnosticsCollection): (names: seq<string>)
    ensures NoDuplicates(names)
    ensures forall i :: 0 <= i < |names| ==> names[i] in DriverNameList(c.items)
    ensures forall n :: n in names <==> exists i :: 0 <= i < |c.items| && Name(c.items[i]) == n
    ensures forall i, j :: 0 <= i < j < |names| ==>
      FirstIndex(DriverNameList(c.items), names[i]) < FirstIndex(DriverNameList(c.items), names[j])
  {
    var all := DriverNameList(c.items);
    UniqueAfterElements(all, {});
    UniqueAfterNoDuplicates(all, {});
    UniqueAfterFirstOccurrenceOrder(all, {});
    UniqueAfter(all, {})
  }

  /** isReady($driverName): some item of that name is ready, whatever its twins say. */
  function IsReady(c: DiagnosticsCollection, driverName: string): (ready: bool)
    ensures ready <==> exists i :: 0 <= i < |c.items| && Name(c.items[i]) == driverName && c.items[i].isReady
  {
    ReadyItemsNamedEmpty(c.items, driverName);
    |ReadyItemsNamed(c.items, driverName)| > 0
  }

  /** preferredDriverName(): the name of the last ready item, or '' if none is ready. */
  function PreferredDriverName(c: DiagnosticsCollection): (name: string)
    ensures ReadyPositions(c.items) == {} ==> name == ""
    ensures forall k :: LastReadyAt(c.items, k) ==> name == OrEmpty(Name(c.items[k]))
  {
    var ready := ReadyItems(c.items);
    ReadyItemsCardinality(c.items);
    forall k | LastReadyAt(c.items, k)
      ensures |ready| > 0 && ready[|ready| - 1] == c.items[k]
    {
      LastOfReadyItems(c.items, k);
    }
    if |ready| == 0 then "" else OrEmpty(Name(ready[|ready| - 1]))
  }

  // ----- lemmas -----

  lemma {:induction false} ReadyItemsCardinality(items: seq<Diagnostics>)
    ensures |ReadyItems(items)| == |ReadyPositions(items)|
  {
    if items != [] {
      var n := |items| - 1;
      var init := items[..n];
      ReadyItemsCardinality(init);
      if items[n].isReady {
        assert ReadyPositions(items) == ReadyPositions(init) + {n};
      } else {
        assert ReadyPositions(items) == ReadyPositions(init);
      }
    }
  }

  /** readyCount() + unavailableCount() is the number of items. */
  lemma {:induction false} ReadyAndUnavailablePartition(items: seq<Diagnostics>)
    ensures |ReadyItems(items)| + |UnavailableItems(items)| == |items|
  {
    if items != [] {
      ReadyAndUnavailablePartition(items[..|items| - 1]);
    }
  }

  lemma {:induction false} ReadyItemsNamedEmpty(items: seq<Diagnostics>, driverName: string)
    ensures ReadyItemsNamed(items, driverName) == [] <==>
      forall i :: 0 <= i < |items| && Name(items[i]) == driverName ==> !items[i].isReady
  {
    if items != [] {
      var n := |items| - 1;
      ReadyItemsNamedEmpty(items[..n], driverName);
      assert forall i :: 0 <= i < n ==> items[..n][i] == items[i];
    }
  }

  lemma {:induction false} LastOfReadyItems(items: seq<Diagnostics>, k: int)
    requires LastReadyAt(items, k)
    ensures var ready := ReadyItems(items); |ready| > 0 && ready[|ready| - 1] == items[k]
  {
    var n := |items| - 1;
    if k < n {
      assert LastReadyAt(items[..n], k);
      LastOfReadyItems(items[..n], k);
    }
  }

  /** Whenever some item is ready, there is a last ready one. */
  lemma {:induction false} LastReadyExists(items: seq<Diagnostics>, i: int)
    requires 0 <= i < |items| && items[i].isReady
    ensures exists k :: LastReadyAt(items, k)
  {
    var n := |items| - 1;
    if items[n].isReady {
      assert LastReadyAt(items, n);
    } else {
      assert i < n;
      LastReadyExists(items[..n], i);
      var k :| LastReadyAt(items[..n], k);
      assert LastReadyAt(items, k);
    }
  }

  lemma {:induction false} UniqueAfterElements(s: seq<string>, seen: set<string>)
    ensures forall x :: x in UniqueAfter(s, seen) <==> x in s && x !in seen
  {
    if s != [] {
      if s[0] in seen {
        UniqueAfterElements(s[1..], seen);
      } else {
        UniqueAfterElements(s[1..], seen + {s[0]});
      }
      assert s == [s[0]] + s[1..];
    }
  }

  lemma {:induction false} UniqueAfterNoDuplicates(s: seq<string>, seen: set<string>)
    ensures NoDuplicates(UniqueAfter(s, seen))
  {
    if s != [] {
      if s[0] in seen {
        UniqueAfterNoDuplicates(s[1..], seen);
      } else {
        UniqueAfterNoDuplicates(s[1..], seen + {s[0]});
        UniqueAfterElements(s[1..], seen + {s[0]});
      }
    }
  }

  lemma {:induction false} UniqueAfterFirstOccurrenceOrder(s: seq<string>, seen: set<string>)
    ensures forall x :: x in UniqueAfter(s, seen) ==> x in s
    ensures InFirstOccurrenceOrder(UniqueAfter(s, seen), s)
  {
    UniqueAfterElements(s, seen);
    if s != [] {
      var r := UniqueAfter(s, seen);
      var seen' := if s[0] in seen then seen else seen + {s[0]};
      var rest := UniqueAfter(s[1..], seen');
      UniqueAfterFirstOccurrenceOrder(s[1..], seen');
      UniqueAfterElements(s[1..], seen');
      forall i, j | 0 <= i < j < |r|
        ensures FirstIndex(s, r[i]) < FirstIndex(s, r[j])
      {
        if s[0] in seen {
          assert r == rest;
          FirstIndexShift(s, rest[i]);
          FirstIndexShift(s, rest[j]);
        } else {
          assert r == [s[0]] + rest;
          FirstIndexShift(s, rest[j - 1]);
          if i > 0 {
            FirstIndexShift(s, rest[i - 1]);
          }
        }
      }
    }
  }

  /** A non-empty preferred driver name is a ready driver. */
  lemma PreferredDriverIsReady(c: DiagnosticsCollection)
    ensures PreferredDriverName(c) != "" ==> IsReady(c, PreferredDriverName(c))
  {
    if PreferredDriverName(c) != "" {
      var i :| i in ReadyPositions(c.items);
      LastReadyExists(c.items, i);
      var k :| LastReadyAt(c.items, k);
      assert Name(c.items[k]) == PreferredDriverName(c);
    }
  }

  /** With driver names PHP does not treat as falsy, no preference means nothing is ready. */
  lemma PreferredEmptyIffNoneReady(c: DiagnosticsCollection)
    requires forall i :: 0 <= i < |c.items| ==> OrEmpty(Name(c.items[i])) != ""
    ensures PreferredDriverName(c) == "" <==> ReadyCount(c) == 0
  {
    if ReadyPositions(c.items) != {} {
      var i :| i in ReadyPositions(c.items);
      LastReadyExists(c.items, i);
    }
  }

  /**
   * The first (worst-ranked) entry, if its name is unique, is preferred exactly when it is
   * the only ready entry.
   */
  lemma WorstPreferredOnlyAlone(c: DiagnosticsCollection)
    requires |c.items| > 0 && OrEmpty(Name(c.items[0])) != ""
    requires forall j :: 0 < j < |c.items| ==> Name(c.items[j]) != Name(c.items[0])
    ensures PreferredDriverName(c) == Name(c.items[0]) <==>
      c.items[0].isReady && forall j :: 0 < j < |c.items| ==> !c.items[j].isReady
  {
    if c.items[0].isReady && forall j :: 0 < j < |c.items| ==> !c.items[j].isReady {
      assert LastReadyAt(c.items, 0);
    }
    if PreferredDriverName(c) == Name(c.items[0]) {
      assert ReadyPositions(c.items) != {};
      var i :| i in ReadyPositions(c.items);
      LastReadyExists(c.items, i);
      var k :| LastReadyAt(c.items, k);
      assert k == 0;
    }
  }

  /** An empty collection is not ready for anything and prefers no driver. */
  lemma EmptyCollection(driverName: string)
    ensures var c := DiagnosticsCollection([]);
      ReadyCount(c) == 0 && UnavailableCount(c) == 0 && DriverNames(c) == []
      && PreferredDriverName(c) == "" && !IsReady(c, driverName)
  {
  }
}
