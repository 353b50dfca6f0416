/** The list bookkeeping of the rocket-model training-data script:
    removing repeated entries while keeping their first occurrences, and
    finding the trigger images that repeat an earlier trigger's date and
    rank so that only the first of them is used. */
module RocketTrainingData {
  import opened ArrayOps

  /** Whether position `k` holds a value already seen among the first `i` entries. */
  predicate Seen<T(==)>(xs: seq<T>, i: nat, k: nat)
    requires i <= |xs| && k < |xs|
  {
    exists j :: 0 <= j < i && xs[j] == xs[k]
  }

  /** The positions that hold the first occurrence of their value. */
  function FirstMask<T(==)>(xs: seq<T>): (m: seq<bool>)
    ensures |m| == |xs| && forall k :: 0 <= k < |xs| ==> (m[k] <==> !Seen(xs, k, k))
  {
    seq(|xs|, k requires 0 <= k < |xs| => !Seen(xs, k, k))
  }

  // ---------------------------------------------------------------------
  // remove_duplicates_from_list

  /** `remove_duplicates_from_list`: one pass with a set of the entries seen
      so far, appending each entry the first time it appears. */
  method RemoveDuplicates<T(==,!new)>(entries: seq<T>) returns (unique: seq<T>)
    ensures unique == FirstOccurrences(entries)
  {
    unique := [];
    var seen: set<T> := {};
    for i := 0 to |entries|
      invariant unique == FirstOccurrences(entries[..i])
      invariant forall x :: x in seen <==> x in unique
    {
      var entry := entries[i];
      PrefixStep(entries, i);
      assert entries[..i + 1][..i] == entries[..i];
      if entry !in seen {
        seen := seen + {entry};
        unique := unique + [entry];
      }
    }
    PrefixAll(entries);
  }

  /** The list without repeats is the input read at its first occurrences,
      so it keeps the first occurrence of each entry in the original order. */
  lemma {:induction false} FirstOccurrencesAreFirsts<T(!new)>(xs: seq<T>)
    ensures FirstOccurrences(xs) == Select(xs, FirstMask(xs))
    decreases |xs|
  {
    if xs != [] {
      var n := |xs| - 1;
      var p := xs[..n];
      FirstOccurrencesAreFirsts(p);
      assert FirstMask(xs)[..n] == FirstMask(p) by {
        forall k | 0 <= k < n ensures FirstMask(xs)[k] == FirstMask(p)[k] {
          assert Seen(xs, k, k) <==> Seen(p, k, k) by {
            if Seen(xs, k, k) {
              var j :| 0 <= j < k && xs[j] == xs[k];
              assert p[j] == p[k];
            }
            if Seen(p, k, k) {
              var j :| 0 <= j < k && p[j] == p[k];
              assert xs[j] == xs[k];
            }
          }
        }
      }
      assert xs[n] in FirstOccurrences(p) <==> Seen(xs, n, n) by {
        if xs[n] in p {
          var j :| 0 <= j < n && p[j] == xs[n];
          assert xs[j] == xs[n];
        }
        if Seen(xs, n, n) {
          var j :| 0 <= j < n && xs[j] == xs[n];
          assert p[j] == xs[n];
        }
      }
    }
  }

  // ---------------------------------------------------------------------
  // find_duplicate_triggers

  /** A position is dropped after the first `i` keys have been processed
      when it repeats an earlier key and that key occurs among the first `i`. */
  predicate Dropped<T(==)>(keys: seq<T>, i: nat, k: nat)
    requires i <= |keys| && k < |keys|
  {
    Seen(keys, k, k) && Seen(keys, i, k)
  }

  /** Processing key `i` drops exactly the positions after the first that
      hold the same key. */
  lemma {:induction false} DropStep<T>(keys: seq<T>, i: nat, idx: seq<nat>, k: nat)
    requires i < |keys| && k < |keys| && idx == Where(EqualMask(keys, keys[i]))
    ensures Dropped(keys, i + 1, k) <==> Dropped(keys, i, k) || exists u :: 1 <= u < |idx| && idx[u] == k
  {
    var m := EqualMask(keys, keys[i]);
    if keys[k] != keys[i] {
      assert Seen(keys, i + 1, k) <==> Seen(keys, i, k) by {
        if Seen(keys, i + 1, k) {
          var j :| 0 <= j < i + 1 && keys[j] == keys[k];
          assert j < i;
        }
      }
      assert !exists u :: 1 <= u < |idx| && idx[u] == k by {
        forall u | 1 <= u < |idx| ensures idx[u] != k { assert m[idx[u]]; }
      }
    } else {
      assert Seen(keys, i + 1, k) by { assert keys[i] == keys[k]; }
      assert m[k];
      var a :| 0 <= a < |idx| && idx[a] == k;
      WhereFirst(m);
      if a == 0 {
        assert !Seen(keys, k, k) by {
          forall j | 0 <= j < k ensures keys[j] != keys[k] { assert !m[j]; }
        }
        assert !exists u :: 1 <= u < |idx| && idx[u] == k by {
          forall u | 1 <= u < |idx| ensures idx[u] != k { assert idx[0] < idx[u]; }
        }
      } else {
        assert idx[0] < k && keys[idx[0]] == keys[k] by { assert m[idx[0]]; }
        assert Seen(keys, k, k);
      }
    }
  }

  /** Clears the flags of the positions `idx[1..]`. */
  method DropLaterDuplicates(keep: seq<bool>, idx: seq<nat>) returns (r: seq<bool>)
    requires forall u :: 0 <= u < |idx| ==> idx[u] < |keep|
    ensures |r| == |keep|
    ensures forall k :: 0 <= k < |keep| ==> (r[k] <==> keep[k] && !exists u :: 1 <= u < |idx| && idx[u] == k)
  {
    r := keep;
    if |idx| <= 1 {
      return;
    }
    for t := 1 to |idx|
      invariant |r| == |keep|
      invariant forall k :: 0 <= k < |keep| ==> (r[k] <==> keep[k] && !exists u :: 1 <= u < t && idx[u] == k)
    {
      r := r[idx[t] := false];
    }
  }

  /** The keep flags of `find_duplicate_triggers`: for every key, the
      positions holding it are listed in increasing order, and every one but
      the first is cleared. */
  method DuplicateKeepFlags<T(==)>(keys: seq<T>) returns (keep: seq<bool>)
    ensures keep == FirstMask(keys)
  {
    keep := seq(|keys|, _ => true);
    for i := 0 to |keys|
      invariant |keep| == |keys|
      invariant forall k :: 0 <= k < |keys| ==> (keep[k] <==> !Dropped(keys, i, k))
    {
      var idx := Where(EqualMask(keys, keys[i]));
      keep := DropLaterDuplicates(keep, idx);
      forall k | 0 <= k < |keys| ensures keep[k] <==> !Dropped(keys, i + 1, k) {
        DropStep(keys, i, idx, k);
      }
    }
    AllDroppedFirst(keys, keep);
  }

  /** Once every key is processed, the flags left on are the first
      occurrences. */
  lemma AllDroppedFirst<T>(keys: seq<T>, keep: seq<bool>)
    requires |keep| == |keys|
    requires forall k :: 0 <= k < |keys| ==> (keep[k] <==> !Dropped(keys, |keys|, k))
    ensures keep == FirstMask(keys)
  {
    forall k | 0 <= k < |keys| ensures keep[k] == FirstMask(keys)[k] {
      SeenAtOwn(keys, k);
    }
  }

  lemma SeenAtOwn<T>(xs: seq<T>, k: nat)
    requires k < |xs|
    ensures Seen(xs, |xs|, k)
  {
    var v := xs[k];
    assert xs[k] == v;
  }

  /** Elementwise negation. */
  function Not(m: seq<bool>): (r: seq<bool>)
    ensures |r| == |m| && forall k :: 0 <= k < |m| ==> r[k] == !m[k]
  {
    seq(|m|, k requires 0 <= k < |m| => !m[k])
  }

  /** `find_duplicate_triggers` over the image paths: `keyOf` reads the date
      and rank of a path and `nameOf` the image name the caller moves. The
      names of every image whose key repeats an earlier image's key are
      returned, in path order. */
  method FindDuplicateTriggers(paths: seq<string>, keyOf: string -> string, nameOf: string -> string)
    returns (toDrop: seq<string>)
    ensures var keys := seq(|paths|, k requires 0 <= k < |paths| => keyOf(paths[k]));
      var drop := Select(paths, Not(FirstMask(keys)));
      toDrop == seq(|drop|, j requires 0 <= j < |drop| => nameOf(drop[j]))
  {
    var keys := seq(|paths|, k requires 0 <= k < |paths| => keyOf(paths[k]));
    var keep := DuplicateKeepFlags(keys);
    var drop := Select(paths, Not(keep));
    toDrop := seq(|drop|, j requires 0 <= j < |drop| => nameOf(drop[j]));
  }

  /** A dropped image repeats the key of an earlier kept image, and every
      key keeps exactly its first image. */
  lemma {:induction false} DroppedHasKeptOriginal<T>(keys: seq<T>, k: nat)
    requires k < |keys| && !FirstMask(keys)[k]
    ensures exists j :: 0 <= j < k && keys[j] == keys[k] && FirstMask(keys)[j]
    decreases k
  {
    var j :| 0 <= j < k && keys[j] == keys[k];
    if !FirstMask(keys)[j] {
      DroppedHasKeptOriginal(keys, j);
      var i :| 0 <= i < j && keys[i] == keys[j] && FirstMask(keys)[i];
      assert keys[i] == keys[k];
    }
  }

  /** Two kept images never share a key. */
  lemma KeptKeysDistinct<T>(keys: seq<T>, a: nat, b: nat)
    requires a < b < |keys| && FirstMask(keys)[a] && FirstMask(keys)[b]
    ensures keys[a] != keys[b]
  {
  }
}
