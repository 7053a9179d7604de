/**
 * Filtering a list while keeping its order: the positions a filter keeps,
 * listed in increasing order.
 */
module Indices {
  import opened Wrappers

  /** The positions of `flags` that hold `true`, in increasing order. */
  function Selected(flags: seq<bool>): (r: seq<nat>)
    ensures |r| <= |flags|
    ensures forall t :: 0 <= t < |r| ==> r[t] < |flags| && flags[r[t]]
    ensures forall t, u :: 0 <= t < u < |r| ==> r[t] < r[u]
    ensures forall i :: 0 <= i < |flags| && flags[i] ==> i in r
    decreases |flags|
  {
    if flags == [] then []
    else
      var init := Selected(flags[..|flags| - 1]);
      if flags[|flags| - 1] then init + [|flags| - 1] else init
  }

  /** Filtering one more element extends the previous result, so a loop can build it element by element. */
  lemma SelectedSnoc(flags: seq<bool>, b: bool)
    ensures Selected(flags + [b]) == Selected(flags) + (if b then [|flags|] else [])
  {
    assert (flags + [b])[..|flags|] == flags;
  }

  /** The entries of `xs` at the positions `idx`, in that order. */
  function Pick<T>(xs: seq<T>, idx: seq<nat>): (r: seq<T>)
    requires forall t :: 0 <= t < |idx| ==> idx[t] < |xs|
    ensures |r| == |idx| && forall t :: 0 <= t < |idx| ==> r[t] == xs[idx[t]]
  {
    seq(|idx|, t requires 0 <= t < |idx| => xs[idx[t]])
  }

  /**
   * A filter walking `xs` with the flags `flags`: passing entry `i` appends
   * it to what was kept so far when its flag is set.
   */
  lemma PickSelectedSnoc<T>(xs: seq<T>, flags: seq<bool>, i: nat)
    requires |flags| == |xs| && i < |xs|
    ensures Pick(xs, Selected(flags[..i + 1])) ==
            Pick(xs, Selected(flags[..i])) + (if flags[i] then [xs[i]] else [])
  {
    assert flags[..i + 1] == flags[..i] + [flags[i]];
    SelectedSnoc(flags[..i], flags[i]);
  }

  /** Which entries of `xs` are present. */
  function Flags<T>(xs: seq<Option<T>>): (f: seq<bool>)
    ensures |f| == |xs| && forall i :: 0 <= i < |xs| ==> f[i] == xs[i].Some?
  {
    seq(|xs|, i requires 0 <= i < |xs| => xs[i].Some?)
  }

  /**
   * The present values of `xs`, in order: the result of a loop that pushes
   * the value of every entry that has one.
   */
  function Present<T>(xs: seq<Option<T>>): (r: seq<T>)
    ensures var idx := Selected(Flags(xs));
            |r| == |idx| && forall t :: 0 <= t < |r| ==> xs[idx[t]] == Some(r[t])
    decreases |xs|
  {
    if xs == [] then []
    else
      var init := xs[..|xs| - 1];
      var last := xs[|xs| - 1];
      assert xs == init + [last];
      assert Flags(xs) == Flags(init) + [last.Some?];
      SelectedSnoc(Flags(init), last.Some?);
      Present(init) + (if last.Some? then [last.value] else [])
  }

  /** Pushing one more entry extends the result by its value, if it has one. */
  lemma PresentSnoc<T>(xs: seq<Option<T>>, x: Option<T>)
    ensures Present(xs + [x]) == Present(xs) + (if x.Some? then [x.value] else [])
  {
    assert (xs + [x])[..|xs|] == xs;
  }

  /** `PresentSnoc` for a loop over `xs` that has passed its first `i` entries and reads entry `i`. */
  lemma PresentStep<T>(xs: seq<Option<T>>, i: nat, x: Option<T>)
    requires i < |xs| && x == xs[i]
    ensures Present(xs[..i + 1]) == Present(xs[..i]) + (if x.Some? then [x.value] else [])
  {
    assert xs[..i + 1] == xs[..i] + [x];
    PresentSnoc(xs[..i], x);
  }
}

/**
 * Deduplication by key where only valid entries are recorded as seen: an entry
 * is kept exactly when it is valid and no earlier valid entry has its key.
 * This is the "first occurrence wins" rule of both search-result extractors.
 */
module Dedup {
  import Indices

  /** Position `i` holds the first valid occurrence of its key. */
  predicate FirstValid<K(==)>(keys: seq<K>, valid: seq<bool>, i: nat)
    requires |keys| == |valid| && i < |keys|
  {
    valid[i] && forall j :: 0 <= j < i && valid[j] ==> keys[j] != keys[i]
  }

  function FirstFlags<K(==)>(keys: seq<K>, valid: seq<bool>): (f: seq<bool>)
    requires |keys| == |valid|
    ensures |f| == |keys|
    ensures forall i :: 0 <= i < |keys| ==> f[i] == FirstValid(keys, valid, i)
  {
    seq(|keys|, i requires 0 <= i < |keys| => FirstValid(keys, valid, i))
  }

  /** The positions the deduplication keeps, in their original order. */
  function Kept<K(==)>(keys: seq<K>, valid: seq<bool>): (r: seq<nat>)
    requires |keys| == |valid|
    ensures |r| <= |keys|
    ensures forall t :: 0 <= t < |r| ==> r[t] < |keys| && FirstValid(keys, valid, r[t])
    ensures forall t, u :: 0 <= t < u < |r| ==> r[t] < r[u]
    ensures forall i :: 0 <= i < |keys| && FirstValid(keys, valid, i) ==> i in r
  {
    Indices.Selected(FirstFlags(keys, valid))
  }

  /** No two kept entries share a key. */
  lemma KeptKeysDistinct<K>(keys: seq<K>, valid: seq<bool>)
    requires |keys| == |valid|
    ensures var r := Kept(keys, valid);
            forall t, u :: 0 <= t < u < |r| ==> keys[r[t]] != keys[r[u]]
  {
    var r := Kept(keys, valid);
    forall t, u | 0 <= t < u < |r| ensures keys[r[t]] != keys[r[u]] {
      assert FirstValid(keys, valid, r[u]);
      assert valid[r[t]];
    }
  }

  /** Every valid entry has a kept entry with its key, and that entry comes no later than it. */
  lemma {:induction false} FirstOccurrenceKept<K>(keys: seq<K>, valid: seq<bool>, i: nat)
    requires |keys| == |valid| && i < |keys| && valid[i]
    ensures exists j :: j in Kept(keys, valid) && j <= i && keys[j] == keys[i]
    decreases i
  {
    if FirstValid(keys, valid, i) {
      assert i in Kept(keys, valid);
    } else {
      var j :| 0 <= j < i && valid[j] && keys[j] == keys[i];
      FirstOccurrenceKept(keys, valid, j);
    }
  }

  /** The keys a walk has recorded as seen before position `i`: those of the valid entries. */
  function SeenKeys<K(==)>(keys: seq<K>, valid: seq<bool>, i: nat): set<K>
    requires |keys| == |valid| && i <= |keys|
  {
    set k | 0 <= k < i && valid[k] :: keys[k]
  }

  /**
   * One step of the walk: entry `i` is kept exactly when it is valid and its
   * key has not been seen, and the seen set grows by its key exactly then.
   */
  lemma SeenStep<K>(keys: seq<K>, valid: seq<bool>, i: nat)
    requires |keys| == |valid| && i < |keys|
    ensures FirstValid(keys, valid, i) <==> valid[i] && keys[i] !in SeenKeys(keys, valid, i)
    ensures SeenKeys(keys, valid, i + 1) ==
            if FirstValid(keys, valid, i) then SeenKeys(keys, valid, i) + {keys[i]} else SeenKeys(keys, valid, i)
  {
    assert SeenKeys(keys, valid, i + 1) ==
           SeenKeys(keys, valid, i) + (if valid[i] then {keys[i]} else {});
    if valid[i] && keys[i] in SeenKeys(keys, valid, i) {
      var k :| 0 <= k < i && valid[k] && keys[k] == keys[i];
    }
  }

  /** The set of keys of valid entries. */
  function ValidKeys<K(==)>(keys: seq<K>, valid: seq<bool>): set<K>
    requires |keys| == |valid|
  {
    set i | 0 <= i < |keys| && valid[i] :: keys[i]
  }

  /** The deduplicated list has exactly one entry per distinct key of a valid entry. */
  lemma KeptCount<K>(keys: seq<K>, valid: seq<bool>)
    requires |keys| == |valid|
    ensures |Kept(keys, valid)| == |ValidKeys(keys, valid)|
  {
    var r := Kept(keys, valid);
    var ks := seq(|r|, t requires 0 <= t < |r| => keys[r[t]]);
    KeptKeysDistinct(keys, valid);
    assert forall t, u :: 0 <= t < u < |ks| ==> ks[t] != ks[u];
    DistinctCard(ks);
    forall k | k in ValidKeys(keys, valid) ensures k in ks {
      var i :| 0 <= i < |keys| && valid[i] && keys[i] == k;
      FirstOccurrenceKept(keys, valid, i);
      var j :| j in r && j <= i && keys[j] == keys[i];
      var t :| 0 <= t < |r| && r[t] == j;
      assert ks[t] == k;
    }
    forall k | k in ks ensures k in ValidKeys(keys, valid) {
      var t :| 0 <= t < |ks| && ks[t] == k;
      assert valid[r[t]];
    }
    assert (set k | k in ks) == ValidKeys(keys, valid);
  }

  lemma {:induction false} DistinctCard<K>(s: seq<K>)
    requires forall t, u :: 0 <= t < u < |s| ==> s[t] != s[u]
    ensures |set k | k in s| == |s|
  {
    if s != [] {
      DistinctCard(s[1..]);
      assert (set k | k in s) == {s[0]} + (set k | k in s[1..]);
      assert s[0] !in (set k | k in s[1..]);
    }
  }
}
