/**
 Finding repeated primary keys in a CSV file (`_KeyTracker` in
 monitor_app/services/importer.py): ascending keys in an array, the others in a dictionary,
 against a plain map from each key to its first line.

 A number goes into the array as long as it is larger than all before it and fits into a
 64-bit integer; it is found there by binary search.  Everything else, text included, goes
 into the dictionary, and a key is looked for in both.
 */
module KeyTracker {
  import opened Options

  const LIMIT := 0x8000_0000_0000_0000

  /** A key as the CSV conversion yields it. */
  datatype PrimaryKey = Number(n: int) | Text(s: string)

  /** Whether a key fits into the array of 64-bit integers. */
  predicate Small(key: PrimaryKey) {
    key.Number? && -LIMIT <= key.n < LIMIT
  }

  predicate Ascending(keys: seq<int>) {
    forall i, j :: 0 <= i < j < |keys| ==> keys[i] < keys[j]
  }

  /** `bisect_left`. */
  method BisectLeft(keys: seq<int>, n: int) returns (i: nat)
    requires Ascending(keys)
    ensures i <= |keys| && (forall j :: 0 <= j < i ==> keys[j] < n) && (forall j :: i <= j < |keys| ==> keys[j] >= n)
  {
    var lo, hi := 0, |keys|;
    while lo < hi
      invariant 0 <= lo <= hi <= |keys|
      invariant forall j :: 0 <= j < lo ==> keys[j] < n
      invariant forall j :: hi <= j < |keys| ==> keys[j] >= n
    {
      var mid := (lo + hi) / 2;
      if keys[mid] < n {
        lo := mid + 1;
      } else {
        hi := mid;
      }
    }
    return lo;
  }

  /** The array holds small keys in ascending order, each with its first line. */
  ghost predicate ArrayOk(keys: seq<int>, lines: seq<int>, seen: map<PrimaryKey, int>) {
    && |keys| == |lines| && Ascending(keys)
    && forall i :: 0 <= i < |keys| ==>
         && Small(Number(keys[i])) && Number(keys[i]) in seen && seen[Number(keys[i])] == lines[i]
  }

  /** The dictionary holds the rest; its small keys are below the last of the array. */
  ghost predicate OthersOk(keys: seq<int>, others: map<PrimaryKey, int>, seen: map<PrimaryKey, int>) {
    && (forall key :: key in others ==> key in seen && seen[key] == others[key])
    && (forall key :: key in others && Small(key) ==> keys != [] && key.n < keys[|keys| - 1])
    && (forall key :: key in seen ==> key in others || (key.Number? && key.n in keys))
  }

  lemma {:induction false} Appended(keys: seq<int>, lines: seq<int>, others: map<PrimaryKey, int>,
                                    seen: map<PrimaryKey, int>, n: int, line: int)
    requires ArrayOk(keys, lines, seen) && OthersOk(keys, others, seen) && Small(Number(n))
    requires keys == [] || n > keys[|keys| - 1]
    ensures Number(n) !in seen
    ensures ArrayOk(keys + [n], lines + [line], seen[Number(n) := line])
    ensures OthersOk(keys + [n], others, seen[Number(n) := line])
  {
    assert n !in keys && Number(n) !in others;
    ArrayAppended(keys, lines, seen, n, line);
    assert n in keys + [n] && forall k :: k in keys ==> k in keys + [n];
    assert OthersOk(keys + [n], others, seen[Number(n) := line]) by {
      hide ArrayOk;
      assert (keys + [n])[|keys|] == n;
    }
  }

  lemma {:induction false} ArrayAppended(keys: seq<int>, lines: seq<int>, seen: map<PrimaryKey, int>, n: int, line: int)
    requires ArrayOk(keys, lines, seen) && Small(Number(n)) && n !in keys
    requires keys == [] || n > keys[|keys| - 1]
    ensures ArrayOk(keys + [n], lines + [line], seen[Number(n) := line])
  {
    assert forall i :: 0 <= i < |keys| ==> keys[i] in keys;
  }

  lemma {:induction false} Remembered(keys: seq<int>, lines: seq<int>, others: map<PrimaryKey, int>,
                                      seen: map<PrimaryKey, int>, key: PrimaryKey, line: int)
    requires ArrayOk(keys, lines, seen) && OthersOk(keys, others, seen)
    requires key !in others && (Small(key) ==> keys != [] && key.n < keys[|keys| - 1] && key.n !in keys)
    ensures key !in seen
    ensures ArrayOk(keys, lines, seen[key := line])
    ensures OthersOk(keys, others[key := line], seen[key := line])
  {
    assert forall i :: 0 <= i < |keys| ==> Small(Number(keys[i]));
  }

  class Tracker {
    var keys: seq<int>
    var lines: seq<int>
    var others: map<PrimaryKey, int>
    /** What a plain dictionary would hold: each key with the line it was first seen on. */
    ghost var seen: map<PrimaryKey, int>

    ghost predicate Valid()
      reads this
    {
      ArrayOk(keys, lines, seen) && OthersOk(keys, others, seen)
    }

    constructor ()
      ensures Valid() && seen == map[]
    {
      keys, lines, others, seen := [], [], map[], map[];
    }

    /** `first_line`; each line of the file is asked about once. */
    method FirstLine(key: PrimaryKey, line: int) returns (first: Option<int>)
      requires Valid() && forall k :: k in seen ==> seen[k] != line
      modifies this
      ensures Valid()
      ensures first == if key in old(seen) then Some(old(seen)[key]) else None
      ensures seen == if key in old(seen) then old(seen) else old(seen)[key := line]
    {
      hide OthersOk;
      if Small(key) {
        if keys == [] || key.n > keys[|keys| - 1] {
          Appended(keys, lines, others, seen, key.n, line);
          keys, lines, seen := keys + [key.n], lines + [line], seen[key := line];
          return None;
        }
        var i := BisectLeft(keys, key.n);
        if i < |keys| && keys[i] == key.n {
          return Some(lines[i]);
        }
        assert key.n !in keys;
      }
      // `setdefault`
      var known := line;
      if key in others {
        InOthers(keys, others, seen, key);
        known := others[key];
      } else {
        Remembered(keys, lines, others, seen, key, line);
        others, seen := others[key := line], seen[key := line];
      }
      return if known != line then Some(known) else None;
    }
  }

  lemma {:induction false} InOthers(keys: seq<int>, others: map<PrimaryKey, int>, seen: map<PrimaryKey, int>,
                                    key: PrimaryKey)
    requires OthersOk(keys, others, seen) && key in others
    ensures key in seen && seen[key] == others[key]
  {
  }
}
