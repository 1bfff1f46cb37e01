// core/collection/safemap.go: two generations of a map with deletion counters, merged when one has
// seen many deletions. To its callers it is one ordinary map, its View.
module SafeMap {
  import opened Wrappers

  const COPY_THRESHOLD := 1000
  const MAX_DELETION := 10000

  class SafeMap<K(==), V> {
    var deletionOld: nat
    var deletionNew: nat
    var dirtyOld: map<K, V>
    var dirtyNew: map<K, V>

    // No key is in both generations, so it does not matter which one is asked first.
    ghost predicate Valid()
      reads this
    {
      dirtyOld.Keys !! dirtyNew.Keys
    }

    ghost function View(): map<K, V>
      reads this
    {
      dirtyOld + dirtyNew
    }

    constructor ()
      ensures Valid() && View() == map[]
    {
      deletionOld, deletionNew, dirtyOld, dirtyNew := 0, 0, map[], map[];
    }

    // Copies the entries of one generation into the other, one at a time.
    static method Copy(from: map<K, V>, into: map<K, V>) returns (merged: map<K, V>)
      requires from.Keys !! into.Keys
      ensures merged == from + into
    {
      merged := into;
      var left := from.Keys;
      while left != {}
        invariant left <= from.Keys && merged.Keys == into.Keys + (from.Keys - left)
        invariant forall k :: k in merged ==> merged[k] == if k in into then into[k] else from[k]
      {
        var k :| k in left;
        merged := merged[k := from[k]];
        left := left - {k};
      }
      assert merged.Keys == (from + into).Keys;
    }

    method Del(key: K)
      requires Valid()
      modifies this
      ensures Valid() && View() == old(View()) - {key}
    {
      hide View;
      Drop(key);
      if deletionOld >= MAX_DELETION && |dirtyOld| < COPY_THRESHOLD {
        MergeIntoNew();
      }
      if deletionNew >= MAX_DELETION && |dirtyNew| < COPY_THRESHOLD {
        MergeIntoOld();
      }
    }

    method Drop(key: K)
      requires Valid()
      modifies this
      ensures Valid() && View() == old(View()) - {key}
      ensures deletionOld + deletionNew == old(deletionOld + deletionNew) + if key in old(View()) then 1 else 0
    {
      if key in dirtyOld {
        dirtyOld := dirtyOld - {key};
        deletionOld := deletionOld + 1;
      } else if key in dirtyNew {
        dirtyNew := dirtyNew - {key};
        deletionNew := deletionNew + 1;
      }
    }

    // The old generation is small after many deletions: the new one takes its entries and its place.
    method MergeIntoNew()
      requires Valid()
      modifies this
      ensures Valid() && View() == old(View()) && dirtyNew == map[]
      ensures deletionOld == old(deletionNew) && deletionNew == 0
    {
      dirtyOld := Copy(dirtyOld, dirtyNew);
      deletionOld := deletionNew;
      dirtyNew := map[];
      deletionNew := 0;
    }

    method MergeIntoOld()
      requires Valid()
      modifies this
      ensures Valid() && View() == old(View()) && dirtyNew == map[]
      ensures deletionOld == old(deletionOld) && deletionNew == 0
    {
      ghost var was := View();
      dirtyOld := Copy(dirtyNew, dirtyOld);
      dirtyNew := map[];
      deletionNew := 0;
      assert dirtyOld.Keys == was.Keys;
    }

    method Get(key: K) returns (val: Option<V>)
      requires Valid()
      ensures val == if key in View() then Some(View()[key]) else None
    {
      if key in dirtyOld {
        return Some(dirtyOld[key]);
      }
      return if key in dirtyNew then Some(dirtyNew[key]) else None;
    }

    method Set(key: K, value: V)
      requires Valid()
      modifies this
      ensures Valid() && View() == old(View())[key := value]
    {
      if deletionOld <= MAX_DELETION {
        if key in dirtyNew {
          dirtyNew := dirtyNew - {key};
          deletionNew := deletionNew + 1;
        }
        dirtyOld := dirtyOld[key := value];
      } else {
        if key in dirtyOld {
          dirtyOld := dirtyOld - {key};
          deletionOld := deletionOld + 1;
        }
        dirtyNew := dirtyNew[key := value];
      }
    }

    method Size() returns (size: nat)
      requires Valid()
      ensures size == |View()|
    {
      assert |View().Keys| == |dirtyOld.Keys| + |dirtyNew.Keys| by {
        assert View().Keys == dirtyOld.Keys + dirtyNew.Keys;
      }
      size := |dirtyOld| + |dirtyNew|;
    }

    // Calls f for the entries of one generation in some order until f says stop.
    static method RangeOver(m: map<K, V>, f: (K, V) -> bool, before: seq<(K, V)>)
      returns (seen: seq<(K, V)>, stopped: bool)
      requires forall e :: e in before ==> e.0 !in m && f(e.0, e.1)
      requires forall i, j :: 0 <= i < j < |before| ==> before[i].0 != before[j].0
      ensures forall e :: e in seen ==> e in before || (e.0 in m && m[e.0] == e.1)
      ensures forall e :: e in before ==> e in seen
      ensures forall i, j :: 0 <= i < j < |seen| ==> seen[i].0 != seen[j].0
      ensures forall i :: 0 <= i < |seen| - 1 ==> f(seen[i].0, seen[i].1)
      ensures stopped ==> seen != [] && !f(seen[|seen| - 1].0, seen[|seen| - 1].1)
      ensures !stopped ==> (forall k :: k in m ==> (k, m[k]) in seen) && forall e :: e in seen ==> f(e.0, e.1)
    {
      seen, stopped := before, false;
      var left := m.Keys;
      while left != {}
        invariant left <= m.Keys
        invariant forall e :: e in seen ==> e in before || (e.0 in m && e.0 !in left && m[e.0] == e.1)
        invariant forall e :: e in before ==> e in seen
        invariant forall i, j :: 0 <= i < j < |seen| ==> seen[i].0 != seen[j].0
        invariant forall e :: e in seen ==> f(e.0, e.1)
        invariant forall k :: k in m && k !in left ==> (k, m[k]) in seen
      {
        var k :| k in left;
        ghost var seen0 := seen;
        seen := seen + [(k, m[k])];
        left := left - {k};
        assert forall i :: 0 <= i < |seen0| ==> seen[i] in seen0;
        if !f(k, m[k]) {
          return seen, true;
        }
      }
      assert forall i :: 0 <= i < |seen| ==> seen[i] in seen;
    }

    // f sees every entry of the view exactly once, or, if it says stop, some entries once each up to that one.
    method Range(f: (K, V) -> bool) returns (seen: seq<(K, V)>)
      requires Valid()
      ensures forall e :: e in seen ==> e.0 in View() && View()[e.0] == e.1
      ensures forall i, j :: 0 <= i < j < |seen| ==> seen[i].0 != seen[j].0
      ensures forall i :: 0 <= i < |seen| - 1 ==> f(seen[i].0, seen[i].1)
      ensures (forall e :: e in seen ==> f(e.0, e.1)) ==> forall k :: k in View() ==> (k, View()[k]) in seen
    {
      var stopped;
      seen, stopped := RangeOver(dirtyOld, f, []);
      if stopped {
        assert seen[|seen| - 1] in seen;
        return;
      }
      seen, stopped := RangeOver(dirtyNew, f, seen);
      if stopped {
        assert seen[|seen| - 1] in seen;
      }
    }
  }
}
