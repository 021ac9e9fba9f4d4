/** The agent's keyring: removal in place, also while ranging over the same backing array. */
module Keyring {
  import opened Options

  /** `blob` is the marshalled public key. */
  datatype PrivKey = PrivKey(blob: seq<int>, comment: string, expire: Option<int>)

  predicate Expired(k: PrivKey, now: int)
  {
    k.expire.Some? && now > k.expire.value
  }

  /** The entries whose public key is not in `gone`, in order. */
  function Without(s: seq<PrivKey>, gone: set<seq<int>>): seq<PrivKey>
  {
    if s == [] then []
    else (if s[0].blob in gone then [] else [s[0]]) + Without(s[1..], gone)
  }

  lemma {:induction false} WithoutCount(s: seq<PrivKey>, gone: set<seq<int>>, k: PrivKey)
    ensures multiset(Without(s, gone))[k] == if k.blob in gone then 0 else multiset(s)[k]
  {
    if s != [] {
      WithoutCount(s[1..], gone, k);
      assert s == [s[0]] + s[1..];
    }
  }

  /** `after` holds exactly the entries of `before` whose key is not in `gone`, with their multiplicity. */
  ghost predicate Swept(before: seq<PrivKey>, after: seq<PrivKey>, gone: set<seq<int>>)
  {
    multiset(after) == multiset(Without(before, gone))
  }

  lemma SweptFromCounts(before: seq<PrivKey>, after: seq<PrivKey>, gone: set<seq<int>>)
    requires forall k: PrivKey :: multiset(after)[k] == if k.blob in gone then 0 else multiset(before)[k]
    ensures Swept(before, after, gone)
  {
    forall k: PrivKey
      ensures multiset(after)[k] == multiset(Without(before, gone))[k]
    {
      WithoutCount(before, gone, k);
    }
  }

  lemma SweptCount(before: seq<PrivKey>, after: seq<PrivKey>, gone: set<seq<int>>, k: PrivKey)
    requires Swept(before, after, gone)
    ensures multiset(after)[k] == if k.blob in gone then 0 else multiset(before)[k]
  {
    WithoutCount(before, gone, k);
  }

  lemma SweptTwice(a: seq<PrivKey>, b: seq<PrivKey>, c: seq<PrivKey>, gone: set<seq<int>>, want: seq<int>)
    requires Swept(a, b, gone) && Swept(b, c, {want})
    ensures Swept(a, c, gone + {want})
  {
    forall k: PrivKey
      ensures multiset(c)[k] == if k.blob in gone + {want} then 0 else multiset(a)[k]
    {
      SweptCount(a, b, gone, k);
      SweptCount(b, c, {want}, k);
    }
    SweptFromCounts(a, c, gone + {want});
  }

  lemma SweptNothing(s: seq<PrivKey>)
    ensures Swept(s, s, {})
  {
    SweptFromCounts(s, s, {});
  }

  /** An entry survives exactly when its key was not swept. */
  lemma SweptMember(before: seq<PrivKey>, after: seq<PrivKey>, gone: set<seq<int>>, k: PrivKey)
    requires Swept(before, after, gone)
    ensures k in after <==> k in before && k.blob !in gone
  {
    SweptCount(before, after, gone, k);
    assert k in after <==> multiset(after)[k] > 0;
    assert k in before <==> multiset(before)[k] > 0;
  }

  /** Moving the last entry into a hole takes out exactly the entry that was there. */
  lemma FillHole(s: seq<PrivKey>, i: nat)
    requires i < |s|
    ensures multiset(s[i := s[|s| - 1]][..|s| - 1]) == multiset(s) - multiset{s[i]}
  {
    var n := |s| - 1;
    var init := s[..n];
    assert s == init + [s[n]];
    if i < n {
      assert s[i := s[n]][..n] == init[i := s[n]];
      assert init[i] == s[i] && s[i] in init;
    } else {
      assert s[i := s[n]][..n] == init;
    }
  }

  // ---- Removal ----

  /** The backing array and how much of it is in use. */
  datatype Slice = Slice(a: seq<PrivKey>, n: nat)
  {
    predicate Valid()
    {
      n <= |a|
    }

    function Contents(): seq<PrivKey>
      requires Valid()
    {
      a[..n]
    }
  }

  /** The removal loop from index `i` on: the last entry moves into the hole and is looked at next. */
  function Remove(s: Slice, want: seq<int>, i: nat): (r: Slice)
    requires s.Valid()
    ensures r.Valid() && |r.a| == |s.a| && r.n <= s.n
    decreases s.n - i
  {
    if i >= s.n then s
    else if s.a[i].blob == want then Remove(Slice(s.a[i := s.a[s.n - 1]], s.n - 1), want, i)
    else Remove(s, want, i + 1)
  }

  lemma {:induction false} RemoveClears(s: Slice, want: seq<int>, i: nat)
    requires s.Valid() && i <= s.n && forall p :: 0 <= p < i ==> s.a[p].blob != want
    ensures var r := Remove(s, want, i);
            && (forall p :: 0 <= p < r.n ==> r.a[p].blob != want)
            && (r.n == s.n <==> forall p :: 0 <= p < s.n ==> s.a[p].blob != want)
    decreases s.n - i
  {
    if i < s.n {
      if s.a[i].blob == want {
        RemoveClears(Slice(s.a[i := s.a[s.n - 1]], s.n - 1), want, i);
      } else {
        RemoveClears(s, want, i + 1);
      }
    }
  }

  lemma {:induction false} RemoveCount(s: Slice, want: seq<int>, i: nat, k: PrivKey)
    requires s.Valid() && k.blob != want
    ensures multiset(Remove(s, want, i).Contents())[k] == multiset(s.Contents())[k]
    decreases s.n - i
  {
    if i < s.n {
      if s.a[i].blob == want {
        var t := Slice(s.a[i := s.a[s.n - 1]], s.n - 1);
        RemoveCount(t, want, i, k);
        FillHole(s.Contents(), i);
        assert t.Contents() == s.Contents()[i := s.a[s.n - 1]][..s.n - 1];
      } else {
        RemoveCount(s, want, i + 1, k);
      }
    }
  }

  /** Whatever stood at a place is still there, unless it had the key `want`; nothing new appears. */
  ghost predicate OnlyHoles(s: Slice, r: Slice, want: seq<int>)
    requires s.Valid()
  {
    && |r.a| == |s.a|
    && (forall q :: 0 <= q < |s.a| ==> r.a[q] == s.a[q] || s.a[q].blob == want)
    && (forall q :: 0 <= q < |s.a| ==> r.a[q] == s.a[q] || r.a[q] in s.a[..s.n])
  }

  lemma {:induction false} RemoveOnlyHoles(s: Slice, want: seq<int>, i: nat)
    requires s.Valid()
    ensures OnlyHoles(s, Remove(s, want, i), want)
    decreases s.n - i
  {
    if i < s.n {
      if s.a[i].blob == want {
        var t := Slice(s.a[i := s.a[s.n - 1]], s.n - 1);
        RemoveOnlyHoles(t, want, i);
        assert s.a[s.n - 1] in s.a[..s.n];
        forall q | 0 <= q < t.n
          ensures t.a[q] in s.a[..s.n]
        {
        }
      } else {
        RemoveOnlyHoles(s, want, i + 1);
      }
    }
  }

  /** Removal takes out every entry with the key and no other, and says whether there was one. */
  lemma RemoveSweeps(s: Slice, want: seq<int>)
    requires s.Valid()
    ensures var r := Remove(s, want, 0);
            && Swept(s.Contents(), r.Contents(), {want})
            && (r.n < s.n <==> exists k :: k in s.Contents() && k.blob == want)
  {
    hide Remove;
    RemoveClears(s, want, 0);
    var r := Remove(s, want, 0);
    forall k: PrivKey
      ensures multiset(r.Contents())[k] == if k.blob in {want} then 0 else multiset(s.Contents())[k]
    {
      if k.blob == want {
        assert k !in r.Contents();
      } else {
        RemoveCount(s, want, 0, k);
      }
    }
    SweptFromCounts(s.Contents(), r.Contents(), {want});
    if p :| 0 <= p < s.n && s.a[p].blob == want {
      assert s.a[p] in s.Contents();
    }
  }

  // ---- Expiry ----

  /** The loop over the `clock` entries there were at the start, read from the array removal rewrites. */
  function Expire(s: Slice, clock: seq<int>, i: nat): (r: Slice)
    requires s.Valid() && |clock| <= |s.a|
    ensures r.Valid() && |r.a| == |s.a| && r.n <= s.n
    decreases |clock| - i
  {
    if i >= |clock| then s
    else Expire(if Expired(s.a[i], clock[i]) then Remove(s, s.a[i].blob, 0) else s, clock, i + 1)
  }

  /** Every live entry that has expired still has a copy at or after `i` among the first `length` places. */
  ghost predicate Copied(s: Slice, length: nat, i: nat, now: int)
    requires s.Valid() && length <= |s.a|
  {
    forall p :: 0 <= p < s.n && Expired(s.a[p], now) ==> CopyFrom(s.a[..length], i, s.a[p])
  }

  ghost predicate CopyFrom(a: seq<PrivKey>, i: nat, k: PrivKey)
  {
    exists q :: i <= q < |a| && a[q] == k
  }

  ghost predicate ExpiredWith(s: seq<PrivKey>, b: seq<int>, now: int)
  {
    exists k :: k in s && k.blob == b && Expired(k, now)
  }

  lemma CopiedStep(s: Slice, length: nat, i: nat, early: int)
    requires s.Valid() && i < length <= |s.a| && Copied(s, length, i, early)
    ensures Copied(Remove(s, s.a[i].blob, 0), length, i + 1, early)
  {
    hide Remove, Swept, OnlyHoles, CopyFrom;
    var want := s.a[i].blob;
    var r := Remove(s, want, 0);
    RemoveSweeps(s, want);
    RemoveOnlyHoles(s, want, 0);
    forall p | 0 <= p < r.n && Expired(r.a[p], early)
      ensures CopyFrom(r.a[..length], i + 1, r.a[p])
    {
      var k := r.a[p];
      assert k in r.Contents();
      SweptMember(s.Contents(), r.Contents(), {want}, k);
      var p' :| 0 <= p' < s.n && s.a[p'] == k;
      CopyStays(s, r, length, i, k);
    }
  }

  lemma CopyStays(s: Slice, r: Slice, length: nat, i: nat, k: PrivKey)
    requires s.Valid() && i < length <= |s.a| && OnlyHoles(s, r, s.a[i].blob) && k.blob != s.a[i].blob
    requires CopyFrom(s.a[..length], i, k)
    ensures CopyFrom(r.a[..length], i + 1, k)
  {
    var q :| i <= q < length && s.a[..length][q] == k;
    assert r.a[..length][q] == k;
  }

  lemma CopiedSkip(s: Slice, length: nat, i: nat, early: int)
    requires s.Valid() && i < length <= |s.a| && Copied(s, length, i, early) && !Expired(s.a[i], early)
    ensures Copied(s, length, i + 1, early)
  {
    forall p | 0 <= p < s.n && Expired(s.a[p], early)
      ensures CopyFrom(s.a[..length], i + 1, s.a[p])
    {
      var q :| i <= q < length && s.a[..length][q] == s.a[p];
      assert q != i;
    }
  }

  /** Entries among the first `length` places are all from `before`. */
  ghost predicate Known(s: Slice, length: nat, before: seq<PrivKey>)
    requires length <= |s.a|
  {
    forall q :: 0 <= q < length ==> s.a[q] in before
  }

  lemma KnownStep(s: Slice, length: nat, before: seq<PrivKey>, want: seq<int>)
    requires s.Valid() && s.n <= length <= |s.a| && Known(s, length, before)
    ensures Known(Remove(s, want, 0), length, before)
  {
    hide Remove;
    RemoveOnlyHoles(s, want, 0);
  }

  /** What the loop has done by index `i`: swept `gone` from `before`. */
  ghost predicate Progress(s: Slice, before: seq<PrivKey>, gone: set<seq<int>>, i: nat, early: int, late: int)
    requires s.Valid() && |before| <= |s.a|
  {
    && s.n <= |before|
    && Swept(before, s.Contents(), gone)
    && Copied(s, |before|, i, early)
    && Known(s, |before|, before)
    && forall b :: b in gone ==> ExpiredWith(before, b, late)
  }

  lemma ProgressStep(s: Slice, before: seq<PrivKey>, gone: set<seq<int>>, i: nat, at: int, early: int, late: int)
    returns (gone': set<seq<int>>)
    requires s.Valid() && |before| <= |s.a| && Progress(s, before, gone, i, early, late)
    requires i < |before| && early <= at <= late
    ensures Progress(if Expired(s.a[i], at) then Remove(s, s.a[i].blob, 0) else s, before, gone', i + 1, early, late)
  {
    hide Remove, Copied, Swept;
    gone' := gone;
    if Expired(s.a[i], at) {
      var want := s.a[i].blob;
      RemoveSweeps(s, want);
      SweptTwice(before, s.Contents(), Remove(s, want, 0).Contents(), gone, want);
      CopiedStep(s, |before|, i, early);
      KnownStep(s, |before|, before, want);
      assert ExpiredWith(before, want, late);
      gone' := gone + {want};
    } else {
      CopiedSkip(s, |before|, i, early);
    }
  }

  lemma {:induction false} ProgressToEnd(s: Slice, before: seq<PrivKey>, gone: set<seq<int>>, clock: seq<int>, i: nat, early: int, late: int)
    returns (gone': set<seq<int>>)
    requires s.Valid() && |clock| == |before| <= |s.a| && Progress(s, before, gone, i, early, late) && i <= |clock|
    requires forall j :: 0 <= j < |clock| ==> early <= clock[j] <= late
    ensures Progress(Expire(s, clock, i), before, gone', |clock|, early, late)
    decreases |clock| - i
  {
    hide Progress, Remove;
    gone' := gone;
    if i < |clock| {
      var more := ProgressStep(s, before, gone, i, clock[i], early, late);
      gone' := ProgressToEnd(if Expired(s.a[i], clock[i]) then Remove(s, s.a[i].blob, 0) else s, before, more, clock, i + 1, early, late);
    }
  }

  /** With the clock read once per entry, somewhere between `early` and `late`: what has expired by `early` is
      gone with every entry of the same key, a key goes only for an entry that has expired by `late`, and
      everything else is still there. */
  lemma ExpireSweeps(s: Slice, clock: seq<int>, early: int, late: int) returns (gone: set<seq<int>>)
    requires s.Valid() && |clock| == s.n && forall j :: 0 <= j < |clock| ==> early <= clock[j] <= late
    ensures Swept(s.Contents(), Expire(s, clock, 0).Contents(), gone)
    ensures forall k :: k in s.Contents() && Expired(k, early) ==> k.blob in gone
    ensures forall b :: b in gone ==> ExpiredWith(s.Contents(), b, late)
  {
    var before := s.Contents();
    ProgressAtStart(s, early, late);
    gone := ProgressToEnd(s, before, {}, clock, 0, early, late);
    hide Expire, Swept;
    var r := Expire(s, clock, 0);
    forall k | k in before && Expired(k, early)
      ensures k.blob in gone
    {
      SweptMember(before, r.Contents(), gone, k);
      if k.blob !in gone {
        NothingExpired(r, |clock|, early, k);
      }
    }
  }

  lemma ProgressAtStart(s: Slice, early: int, late: int)
    requires s.Valid()
    ensures Progress(s, s.Contents(), {}, 0, early, late)
  {
    SweptNothing(s.Contents());
    forall p | 0 <= p < s.n
      ensures CopyFrom(s.a[..s.n], 0, s.a[p])
    {
      assert s.a[..s.n][p] == s.a[p];
    }
  }

  lemma NothingExpired(s: Slice, length: nat, early: int, k: PrivKey)
    requires s.Valid() && length <= |s.a| && Copied(s, length, length, early) && k in s.Contents()
    ensures !Expired(k, early)
  {
    var p :| 0 <= p < s.n && s.a[p] == k;
  }

  /** At a single instant the keys that go are exactly those of expired entries. */
  lemma ExpireExact(s: Slice, now: int, k: PrivKey)
    requires s.Valid()
    ensures var r := Expire(s, seq(s.n, _ => now), 0);
            && (k in r.Contents() <==>
                  k in s.Contents() && forall l :: l in s.Contents() && l.blob == k.blob && l.expire.Some? ==> now <= l.expire.value)
            && (k in r.Contents() ==> multiset(r.Contents())[k] == multiset(s.Contents())[k])
  {
    var clock := seq(s.n, _ => now);
    var gone := ExpireSweeps(s, clock, now, now);
    hide Expire, Swept;
    var r := Expire(s, clock, 0);
    SweptMember(s.Contents(), r.Contents(), gone, k);
    SweptCount(s.Contents(), r.Contents(), gone, k);
  }

  // ---- The object ----

  class Ring {
    var keys: array<PrivKey>        // the backing array
    var n: nat                      // how much of it is in use

    ghost predicate Valid()
      reads this
    {
      n <= keys.Length
    }

    ghost function View(): (s: Slice)
      requires Valid()
      reads this, keys
      ensures s.Valid()
    {
      Slice(keys[..], n)
    }

    method RemoveLocked(want: seq<int>) returns (found: bool)
      requires Valid()
      modifies this`n, keys
      ensures Valid() && View() == Remove(old(View()), want, 0)
      ensures found <==> n < old(n)
    {
      found := false;
      var i := 0;
      while i < n
        invariant Valid() && keys == old(keys) && n <= old(n)
        invariant Remove(View(), want, i) == Remove(old(View()), want, 0)
        invariant found <==> n < old(n)
        decreases n - i
      {
        if keys[i].blob == want {
          found := true;
          ghost var was := keys[..];
          keys[i] := keys[n - 1];
          assert keys[..] == was[i := was[n - 1]];
          n := n - 1;
        } else {
          i := i + 1;
        }
      }
    }

    /** Ranges over the entries there were at the start. */
    method ExpireKeysLocked(clock: seq<int>)
      requires Valid() && |clock| == n
      modifies this`n, keys
      ensures Valid() && View() == Expire(old(View()), clock, 0)
    {
      hide Remove;
      for i := 0 to |clock|
        invariant Valid() && keys == old(keys)
        invariant Expire(View(), clock, i) == Expire(old(View()), clock, 0)
      {
        var k := keys[i];
        if Expired(k, clock[i]) {
          var _ := RemoveLocked(k.blob);
        }
      }
    }
  }
}
