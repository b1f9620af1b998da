/** When the order of completion shows in the manifest: a file that repeats a stored hash is skipped
    and a rival report for a stored key is quarantined, so whoever comes first decides. */
module ImportOrder {
  import opened ImportPipeline
  import opened ImportWindow
  import opened Wrappers

  ghost predicate Reshuffled(a: seq<Outcome>, b: seq<Outcome>) {
    multiset(a) == multiset(b)
  }

  /** How many readable outcomes carry one of the hashes. */
  ghost function Among(outs: seq<Outcome>, hashes: set<Sha>): nat {
    if outs == [] then 0 else Among(outs[..|outs| - 1], hashes) + One(Carries(outs[|outs| - 1], hashes))
  }

  predicate Carries(o: Outcome, hashes: set<Sha>) {
    Good(o) && o.record.value.hash in hashes
  }

  ghost function Copies(outs: seq<Outcome>, h: Sha): nat {
    Among(outs, {h})
  }

  predicate Rivals(o: Outcome, p: Outcome) {
    Good(o) && Good(p) && CanonicalKey(o.record.value) == CanonicalKey(p.record.value)
  }

  /** Hashes that compete for a key nobody holds yet are offered equally often. */
  ghost predicate EvenlyOffered(reports: Reports, outs: seq<Outcome>) {
    forall o, p :: o in outs && p in outs && Rivals(o, p) && CanonicalKey(o.record.value) !in KeysOf(reports) ==>
      Copies(outs, o.record.value.hash) == Copies(outs, p.record.value.hash)
  }

  /** Every order of the same outcomes reports the same figure. */
  ghost predicate Fixed(reports: Reports, outs: seq<Outcome>, status: Status) {
    forall shuffled :: Reshuffled(outs, shuffled) ==> Tally(reports, shuffled, status) == Tally(reports, outs, status)
  }

  // ----- Counting copies

  lemma {:induction false} AmongJoins(a: seq<Outcome>, b: seq<Outcome>, hashes: set<Sha>)
    ensures Among(a + b, hashes) == Among(a, hashes) + Among(b, hashes)
  {
    if b == [] {
      assert a + b == a;
    } else {
      assert (a + b)[..|a + b| - 1] == a + b[..|b| - 1];
      AmongJoins(a, b[..|b| - 1], hashes);
    }
  }

  lemma AmongAround(outs: seq<Outcome>, i: nat, hashes: set<Sha>)
    requires i < |outs|
    ensures Among(outs, hashes) == Among(Without(outs, i), hashes) + One(Carries(outs[i], hashes))
  {
    AmongJoins(outs[..i], outs[i + 1..], hashes);
    AmongJoins(outs[..i] + [outs[i]], outs[i + 1..], hashes);
    assert outs == outs[..i] + [outs[i]] + outs[i + 1..];
    assert (outs[..i] + [outs[i]])[..i] == outs[..i];
  }

  lemma {:induction false} AmongReshuffled(a: seq<Outcome>, b: seq<Outcome>, hashes: set<Sha>)
    requires Reshuffled(a, b)
    ensures Among(a, hashes) == Among(b, hashes)
    decreases |a|
  {
    if a == [] {
      assert |multiset(b)| == 0;
    } else {
      var n := |a| - 1;
      var i := SameWithout(a, b, n);
      assert Without(a, n) == a[..n];
      hide *;
      AmongReshuffled(Without(a, n), Without(b, i), hashes);
      AmongAround(a, n, hashes);
      AmongAround(b, i, hashes);
    }
  }

  lemma {:induction false} AmongSplits(outs: seq<Outcome>, hashes: set<Sha>, h: Sha)
    requires h !in hashes
    ensures Among(outs, hashes + {h}) == Among(outs, hashes) + Copies(outs, h)
  {
    if outs != [] {
      AmongSplits(outs[..|outs| - 1], hashes, h);
    }
  }

  // ----- What is not quarantined is what carries a hash stored at the end

  /** A hash stored at the end is stored with the key its copies offer. */
  lemma StoredKeyIsOffered(reports: Reports, outs: seq<Outcome>, o: Outcome)
    requires Coherent(reports, outs) && o in outs && Carries(o, AbsorbAll(reports, outs).Keys)
    ensures CanonicalKey(AbsorbAll(reports, outs)[o.record.value.hash]) == CanonicalKey(o.record.value)
  {
    Provenance(reports, outs);
  }

  lemma KeptIsStored(reports: Reports, outs: seq<Outcome>, k: nat)
    requires Unique(reports) && Coherent(reports, outs) && k < |outs|
    ensures Judge(AbsorbAll(reports, outs[..k]), outs[k]) != Quarantined <==>
      Carries(outs[k], AbsorbAll(reports, outs).Keys)
  {
    var before, final, o := AbsorbAll(reports, outs[..k]), AbsorbAll(reports, outs), outs[k];
    assert outs[..k + 1] == outs[..k] + [o];
    AbsorbSnoc(reports, outs[..k], o);
    AbsorbAllGrows(reports, outs, k);
    AbsorbAllGrows(reports, outs, k + 1);
    AbsorbAllUnique(reports, outs);
    if Carries(o, final.Keys) && CanonicalKey(o.record.value) in KeysOf(before) {
      StoredKeyIsOffered(reports, outs, o);
      assert SameKey(final, Holder(before, CanonicalKey(o.record.value)), o.record.value.hash);
    }
  }

  lemma {:induction false} KeptUpTo(reports: Reports, outs: seq<Outcome>, k: nat)
    requires Unique(reports) && Coherent(reports, outs) && k <= |outs|
    ensures Tally(reports, outs[..k], Skipped) + Tally(reports, outs[..k], Imported)
      == Among(outs[..k], AbsorbAll(reports, outs).Keys)
  {
    if k > 0 {
      KeptUpTo(reports, outs, k - 1);
      KeptIsStored(reports, outs, k - 1);
      assert outs[..k][..k - 1] == outs[..k - 1];
    }
  }

  /** Skipped and imported files are the ones whose hash is stored at the end. */
  lemma KeptFiles(reports: Reports, outs: seq<Outcome>)
    requires Unique(reports) && Coherent(reports, outs)
    ensures Tally(reports, outs, Skipped) + Tally(reports, outs, Imported) == Among(outs, AbsorbAll(reports, outs).Keys)
  {
    KeptUpTo(reports, outs, |outs|);
    assert outs[..|outs|] == outs;
  }

  // ----- Comparing two orders key by key

  ghost function HashesFor(reports: Reports, keys: set<Key>): set<Sha> {
    set h | h in reports && CanonicalKey(reports[h]) in keys
  }

  lemma HashesForOneMore(reports: Reports, keys: set<Key>, k: Key)
    requires Unique(reports) && k in KeysOf(reports) && k !in keys
    ensures Holder(reports, k) !in HashesFor(reports, keys)
    ensures HashesFor(reports, keys + {k}) == HashesFor(reports, keys) + {Holder(reports, k)}
  {
    forall h | h in reports && CanonicalKey(reports[h]) == k ensures h == Holder(reports, k) {
      HolderIs(reports, h);
    }
  }

  /** Both databases give the key to hashes with equally many copies. */
  ghost predicate Tied(outs: seq<Outcome>, a: Reports, b: Reports, k: Key) {
    k in KeysOf(a) && k in KeysOf(b) && Copies(outs, Holder(a, k)) == Copies(outs, Holder(b, k))
  }

  lemma {:induction false} KeyByKey(outs: seq<Outcome>, a: Reports, b: Reports, keys: set<Key>)
    requires Unique(a) && Unique(b) && forall k :: k in keys ==> Tied(outs, a, b, k)
    ensures Among(outs, HashesFor(a, keys)) == Among(outs, HashesFor(b, keys))
    decreases |keys|
  {
    if keys == {} {
      assert HashesFor(a, keys) == HashesFor(b, keys) == {};
    } else {
      var k :| k in keys;
      var fewer := keys - {k};
      assert fewer + {k} == keys && Tied(outs, a, b, k);
      KeyByKey(outs, a, b, fewer);
      hide Among, Copies, HashesFor;
      HashesForOneMore(a, fewer, k);
      HashesForOneMore(b, fewer, k);
      AmongSplits(outs, HashesFor(a, fewer), Holder(a, k));
      AmongSplits(outs, HashesFor(b, fewer), Holder(b, k));
      assert Copies(outs, Holder(a, k)) == Copies(outs, Holder(b, k));
    }
  }

  lemma CoherentReshuffled(reports: Reports, outs: seq<Outcome>, shuffled: seq<Outcome>)
    requires Coherent(reports, outs) && Reshuffled(outs, shuffled)
    ensures Coherent(reports, shuffled) && |outs| == |shuffled| && forall o :: o in outs <==> o in shuffled
  {
    assert |multiset(outs)| == |multiset(shuffled)|;
    forall o ensures o in outs <==> o in shuffled {
      assert o in multiset(outs) <==> o in multiset(shuffled);
    }
  }

  /** Skips of two orders differ by the files whose hash only one of them stores. */
  lemma SkipDifference(reports: Reports, x: seq<Outcome>, y: seq<Outcome>)
    requires Unique(reports) && Coherent(reports, x) && Reshuffled(x, y)
    ensures Tally(reports, x, Skipped) - Tally(reports, y, Skipped)
         == Among(x, AbsorbAll(reports, x).Keys) - Among(x, AbsorbAll(reports, y).Keys)
    ensures KeysOf(AbsorbAll(reports, x)) == KeysOf(AbsorbAll(reports, y))
    ensures Unique(AbsorbAll(reports, x)) && Unique(AbsorbAll(reports, y))
  {
    CoherentReshuffled(reports, x, y);
    OrderIndependence(reports, x, y);
    KeptFiles(reports, x);
    KeptFiles(reports, y);
    AmongReshuffled(x, y, AbsorbAll(reports, y).Keys);
    AbsorbAllUnique(reports, x);
    AbsorbAllUnique(reports, y);
  }

  lemma AllHashes(reports: Reports)
    ensures HashesFor(reports, KeysOf(reports)) == reports.Keys
  {
  }

  /** Where every key is tied the skips agree. */
  lemma TiedSkips(reports: Reports, x: seq<Outcome>, y: seq<Outcome>)
    requires Unique(reports) && Coherent(reports, x) && Reshuffled(x, y)
    requires forall k :: k in KeysOf(AbsorbAll(reports, x)) ==> Tied(x, AbsorbAll(reports, x), AbsorbAll(reports, y), k)
    ensures Tally(reports, x, Skipped) == Tally(reports, y, Skipped)
  {
    var a, b := AbsorbAll(reports, x), AbsorbAll(reports, y);
    hide *;
    SkipDifference(reports, x, y);
    KeyByKey(x, a, b, KeysOf(a));
    AllHashes(a);
    AllHashes(b);
  }

  /** Where every other key is tied they differ by the copies of the two holders of the remaining one. */
  lemma OneKeyApart(reports: Reports, x: seq<Outcome>, y: seq<Outcome>, key: Key)
    requires Unique(reports) && Coherent(reports, x) && Reshuffled(x, y)
    requires key in KeysOf(AbsorbAll(reports, x)) && key in KeysOf(AbsorbAll(reports, y))
    requires forall k :: k in KeysOf(AbsorbAll(reports, x)) && k != key ==>
               Tied(x, AbsorbAll(reports, x), AbsorbAll(reports, y), k)
    ensures Tally(reports, x, Skipped) - Tally(reports, y, Skipped)
         == Copies(x, Holder(AbsorbAll(reports, x), key)) - Copies(x, Holder(AbsorbAll(reports, y), key))
  {
    var a, b := AbsorbAll(reports, x), AbsorbAll(reports, y);
    hide *;
    SkipDifference(reports, x, y);
    var others := KeysOf(a) - {key};
    assert others + {key} == KeysOf(a);
    KeyByKey(x, a, b, others);
    AllHashes(a);
    AllHashes(b);
    HashesForOneMore(a, others, key);
    HashesForOneMore(b, others, key);
    AmongSplits(x, HashesFor(a, others), Holder(a, key));
    AmongSplits(x, HashesFor(b, others), Holder(b, key));
  }

  // ----- Who holds a key at the end

  /** Whoever holds a new key was offered by some outcome. */
  lemma HolderWasOffered(reports: Reports, outs: seq<Outcome>, k: Key) returns (o: Outcome)
    requires k in KeysOf(AbsorbAll(reports, outs)) && k !in KeysOf(reports)
    ensures o in outs && Good(o) && CanonicalKey(o.record.value) == k
    ensures o.record.value.hash == Holder(AbsorbAll(reports, outs), k)
  {
    var final := AbsorbAll(reports, outs);
    var h := Holder(final, k);
    Provenance(reports, outs);
    assert h in reports ==> CanonicalKey(reports[h]) in KeysOf(reports);
    o :| o in outs && Good(o) && o.record.value == final[h] && o.record.value.hash == h;
  }

  lemma OldHolderStays(reports: Reports, outs: seq<Outcome>, k: Key)
    requires Unique(reports) && k in KeysOf(reports)
    ensures k in KeysOf(AbsorbAll(reports, outs)) && Holder(AbsorbAll(reports, outs), k) == Holder(reports, k)
  {
    var h := Holder(reports, k);
    assert outs[..0] == [];
    AbsorbAllGrows(reports, outs, 0);
    AbsorbAllUnique(reports, outs);
    HolderIs(AbsorbAll(reports, outs), h);
  }

  predicate Offers(o: Outcome, key: Key) {
    Good(o) && CanonicalKey(o.record.value) == key
  }

  ghost predicate FirstOffer(outs: seq<Outcome>, key: Key, p: nat) {
    p < |outs| && Offers(outs[p], key) && forall q :: 0 <= q < p ==> !Offers(outs[q], key)
  }

  lemma {:induction false} FindFirstOffer(outs: seq<Outcome>, key: Key) returns (p: nat)
    requires key in OfferedKeys(outs)
    ensures FirstOffer(outs, key, p)
  {
    var o :| o in outs && Good(o) && CanonicalKey(o.record.value) == key;
    var i: nat :| i < |outs| && outs[i] == o;
    p := 0;
    while !Offers(outs[p], key)
      invariant p <= i && forall q :: 0 <= q < p ==> !Offers(outs[q], key)
      decreases i - p
    {
      p := p + 1;
    }
  }

  /** A key that nobody held goes to the first outcome that offers it. */
  lemma FirstTakesKey(reports: Reports, outs: seq<Outcome>, key: Key, p: nat)
    requires Unique(reports) && Coherent(reports, outs) && FirstOffer(outs, key, p) && key !in KeysOf(reports)
    ensures key in KeysOf(AbsorbAll(reports, outs))
    ensures Holder(AbsorbAll(reports, outs), key) == outs[p].record.value.hash
  {
    var before, o := AbsorbAll(reports, outs[..p]), outs[p];
    var h := o.record.value.hash;
    assert forall q :: q in outs[..p] ==> q in outs && !Offers(q, key);
    FinalKeys(reports, outs[..p]);
    assert key !in OfferedKeys(outs[..p]);
    assert h !in before by {
      Provenance(reports, outs[..p]);
      assert forall k :: k in before ==> CanonicalKey(before[k]) in KeysOf(before);
    }
    assert outs[..p + 1] == outs[..p] + [o];
    AbsorbSnoc(reports, outs[..p], o);
    AbsorbAllGrows(reports, outs, p + 1);
    AbsorbAllUnique(reports, outs);
    HolderIs(AbsorbAll(reports, outs), h);
  }

  // ----- Orders that a window allows

  /** The outcomes of the submitted files in the order in which the files complete. */
  ghost function Permuted(outs: seq<Outcome>, order: seq<nat>): (shuffled: seq<Outcome>)
    requires forall k :: 0 <= k < |order| ==> order[k] < |outs|
    ensures |shuffled| == |order|
  {
    seq(|order|, k requires 0 <= k < |order| => outs[order[k]])
  }

  lemma PermutedReshuffles(outs: seq<Outcome>, order: seq<nat>, window: nat)
    requires Reachable(order, |outs|, window)
    ensures Reshuffled(outs, Permuted(outs, order))
  {
    var outcome := (i: nat) => if i < |outs| then outs[i] else Outcome([], Unreadable, None, None, None);
    assert forall k :: k in order ==> k < |outs|;
    FullOrderIsPermutation(order, |outs|);
    ImageReordered(UpTo(|outs|), order, outcome);
    assert Image(UpTo(|outs|), outcome) == outs;
    assert Image(order, outcome) == Permuted(outs, order);
  }

  /** The earlier submissions that offer the same key. */
  ghost function Earlier(outs: seq<Outcome>, i: nat, key: Key): set<nat>
    requires i <= |outs|
  {
    set j: nat | j < i && Offers(outs[j], key)
  }

  /** A readable file can complete before all others with its key: those submitted before it fit into
      the window beside it. */
  ghost predicate Contends(outs: seq<Outcome>, i: nat, window: nat) {
    i < |outs| && Good(outs[i]) && |Earlier(outs, i, CanonicalKey(outs[i].record.value))| < window
  }

  /** Either of two files can be the first to complete for the same new key. */
  ghost predicate Contest(reports: Reports, outs: seq<Outcome>, i: nat, j: nat, window: nat) {
    && Contends(outs, i, window) && Contends(outs, j, window)
    && Rivals(outs[i], outs[j]) && CanonicalKey(outs[i].record.value) !in KeysOf(reports)
  }

  /** Hashes that can come first for a key nobody holds yet are offered equally often. */
  ghost predicate EvenContenders(reports: Reports, outs: seq<Outcome>, window: nat) {
    forall i: nat, j: nat :: Contest(reports, outs, i, j, window) ==>
      Copies(outs, outs[i].record.value.hash) == Copies(outs, outs[j].record.value.hash)
  }

  /** Every completion order that the window allows reports the same figure. */
  ghost predicate FixedInWindow(reports: Reports, outs: seq<Outcome>, window: nat, status: Status) {
    forall order :: Reachable(order, |outs|, window) ==>
      Tally(reports, Permuted(outs, order), status) == Tally(reports, outs, status)
  }

  /** Whoever completes first for a key has room for the earlier ones beside it. */
  lemma FirstContends(outs: seq<Outcome>, order: seq<nat>, window: nat, key: Key, p: nat)
    requires Reachable(order, |outs|, window) && FirstOffer(Permuted(outs, order), key, p)
    ensures Contends(outs, order[p], window)
  {
    var i := order[p];
    forall q | 0 <= q < p ensures order[q] !in Earlier(outs, i, key) && order[q] != i {
      assert Permuted(outs, order)[q] == outs[order[q]];
    }
    RoomBeside(Earlier(outs, i, key), order[..p], window, i);
  }

  /** Files below `i` that have not completed fit into the window beside `i`. */
  lemma RoomBeside(open: set<nat>, done: seq<nat>, window: nat, i: nat)
    requires Distinct(done) && forall q :: 0 <= q < |done| ==> done[q] < q + window && done[q] !in open && done[q] != i
    requires i < |done| + window && forall j :: j in open ==> j < i
    ensures |open| < window
  {
    var room, closed := Below(|done| + window), Members(done);
    BelowSize(|done| + window);
    DistinctSize(done);
    SubsetSize(open + {i}, room - closed);
    assert room == closed + (room - closed);
  }

  /** The files below `i` that offer the key, or those that do not, in submission order. */
  ghost function Select(outs: seq<Outcome>, key: Key, i: nat, offering: bool): seq<nat>
    requires i <= |outs|
  {
    if i == 0 then []
    else Select(outs, key, i - 1, offering) + if Offers(outs[i - 1], key) == offering then [i - 1] else []
  }

  ghost predicate Climbs(s: seq<nat>) {
    forall a, b :: 0 <= a < b < |s| ==> s[a] < s[b]
  }

  lemma {:induction false} SelectIs(outs: seq<Outcome>, key: Key, i: nat, offering: bool)
    requires i <= |outs|
    ensures forall x :: x in Select(outs, key, i, offering) ==> x < i && Offers(outs[x], key) == offering
    ensures Climbs(Select(outs, key, i, offering))
  {
    if i > 0 {
      SelectIs(outs, key, i - 1, offering);
      var before := Select(outs, key, i - 1, offering);
      assert forall t :: 0 <= t < |before| ==> before[t] in before;
    }
  }

  /** Two lists that share out the first `i` files. */
  ghost predicate Splits(a: seq<nat>, b: seq<nat>, i: nat) {
    |a| + |b| == i && multiset(a) + multiset(b) == multiset(UpTo(i))
  }

  lemma SplitsStep(a: seq<nat>, b: seq<nat>, i: nat)
    requires Splits(a, b, i)
    ensures Splits(a + [i], b, i + 1) && Splits(a, b + [i], i + 1)
  {
    assert UpTo(i + 1) == UpTo(i) + [i];
    hide UpTo;
    assert multiset(UpTo(i + 1)) == multiset(UpTo(i)) + multiset{i};
    assert multiset(a + [i]) == multiset(a) + multiset{i} && multiset(b + [i]) == multiset(b) + multiset{i};
  }

  lemma NothingToSplit(outs: seq<Outcome>, key: Key)
    ensures Splits(Select(outs, key, 0, false), Select(outs, key, 0, true), 0)
  {
    assert UpTo(0) == [];
  }

  lemma {:induction false} SelectSplits(outs: seq<Outcome>, key: Key, i: nat)
    requires i <= |outs|
    ensures Splits(Select(outs, key, i, false), Select(outs, key, i, true), i)
  {
    hide *;
    if i == 0 {
      NothingToSplit(outs, key);
    } else {
      SelectStep(outs, key, i - 1, false);
      SelectStep(outs, key, i - 1, true);
      SelectSplits(outs, key, i - 1);
      SplitsStep(Select(outs, key, i - 1, false), Select(outs, key, i - 1, true), i - 1);
    }
  }

  lemma SelectStep(outs: seq<Outcome>, key: Key, i: nat, offering: bool)
    requires i < |outs|
    ensures Offers(outs[i], key) == offering ==>
      Select(outs, key, i + 1, offering) == Select(outs, key, i, offering) + [i]
    ensures Offers(outs[i], key) != offering ==> Select(outs, key, i + 1, offering) == Select(outs, key, i, offering)
  {
  }

  /** A file that passes lags behind its number by at most the files held back. */
  lemma {:induction false} PassingLag(outs: seq<Outcome>, key: Key, i: nat)
    requires i <= |outs|
    ensures forall t :: 0 <= t < |Select(outs, key, i, false)| ==>
              Select(outs, key, i, false)[t] <= t + |Select(outs, key, i, true)|
  {
    if i > 0 {
      PassingLag(outs, key, i - 1);
      SelectSplits(outs, key, i - 1);
    }
  }

  /** The files submitted after `i`. */
  ghost function After(i: nat, n: nat): (rest: seq<nat>)
    requires i < n
    ensures |rest| == n - i - 1 && forall t :: 0 <= t < |rest| ==> rest[t] == i + 1 + t
  {
    seq(n - i - 1, t => i + 1 + t)
  }

  /** The order that completes file `i` before all others with its key and delays only those. */
  ghost function Preferring(outs: seq<Outcome>, i: nat): seq<nat>
    requires i < |outs| && Good(outs[i])
  {
    var key := CanonicalKey(outs[i].record.value);
    Select(outs, key, i, false) + [i] + Select(outs, key, i, true) + After(i, |outs|)
  }

  lemma HeldAreEarlier(outs: seq<Outcome>, i: nat, key: Key)
    requires i <= |outs|
    ensures |Select(outs, key, i, true)| <= |Earlier(outs, i, key)|
  {
    var held := Select(outs, key, i, true);
    SelectIs(outs, key, i, true);
    DistinctSize(held);
    SubsetSize(Members(held), Earlier(outs, i, key));
  }

  lemma MoveForward(a: seq<nat>, b: seq<nat>, all: seq<nat>, x: nat, rest: seq<nat>)
    requires multiset(a) + multiset(b) == multiset(all)
    ensures multiset(a + [x] + b + rest) == multiset(all + [x] + rest)
  {
  }

  lemma UpToAround(n: nat, i: nat)
    requires i < n
    ensures UpTo(n) == UpTo(i) + [i] + After(i, n)
  {
  }

  lemma PreferringPermutes(outs: seq<Outcome>, i: nat)
    requires i < |outs| && Good(outs[i])
    ensures multiset(Preferring(outs, i)) == multiset(UpTo(|outs|))
  {
    var key := CanonicalKey(outs[i].record.value);
    SelectSplits(outs, key, i);
    UpToAround(|outs|, i);
    PreferringIs(outs, i, key);
    hide Select, UpTo, CanonicalKey, After, Preferring;
    MoveForward(Select(outs, key, i, false), Select(outs, key, i, true), UpTo(i), i, After(i, |outs|));
  }

  lemma FourParts(a: seq<nat>, i: nat, b: seq<nat>, n: nat, k: nat)
    requires Splits(a, b, i) && i < n
    ensures |a + [i] + b + After(i, n)| == n
    ensures k < n ==>
      (a + [i] + b + After(i, n))[k] ==
        if k < |a| then a[k] else if k == |a| then i else if k <= i then b[k - |a| - 1] else k
  {
  }

  /** Who stands where: first those that pass, then file `i`, those held back, and the later ones. */
  lemma PreferringAt(outs: seq<Outcome>, i: nat, key: Key, k: nat)
    requires i < |outs| && Offers(outs[i], key)
    ensures |Preferring(outs, i)| == |outs| && Splits(Select(outs, key, i, false), Select(outs, key, i, true), i)
    ensures var passing, held := Select(outs, key, i, false), Select(outs, key, i, true);
            k < |outs| ==>
              Preferring(outs, i)[k] ==
                if k < |passing| then passing[k] else if k == |passing| then i
                else if k <= i then held[k - |passing| - 1] else k
  {
    hide *;
    SelectSplits(outs, key, i);
    PreferringIs(outs, i, key);
    FourParts(Select(outs, key, i, false), i, Select(outs, key, i, true), |outs|, k);
  }

  lemma PreferringIs(outs: seq<Outcome>, i: nat, key: Key)
    requires i < |outs| && Offers(outs[i], key)
    ensures Preferring(outs, i)
         == Select(outs, key, i, false) + [i] + Select(outs, key, i, true) + After(i, |outs|)
  {
    hide Select;
  }

  lemma PreferringIsReachable(outs: seq<Outcome>, i: nat, window: nat)
    requires Contends(outs, i, window)
    ensures Reachable(Preferring(outs, i), |outs|, window)
  {
    var order, key := Preferring(outs, i), CanonicalKey(outs[i].record.value);
    PreferringPermutes(outs, i);
    PermutationIsDistinct(order, |outs|);
    HeldAreEarlier(outs, i, key);
    PassingLag(outs, key, i);
    SelectIs(outs, key, i, true);
    hide Select, Preferring, Earlier;
    var held := Select(outs, key, i, true);
    assert forall k :: 0 <= k < |held| ==> held[k] in held;
    forall k | 0 <= k < |order| ensures order[k] < k + window {
      PreferringAt(outs, i, key, k);
    }
  }

  /** File `i` comes first for its key. */
  lemma PreferredIsFirst(outs: seq<Outcome>, i: nat, window: nat)
    requires Contends(outs, i, window) && Reachable(Preferring(outs, i), |outs|, window)
    ensures var key := CanonicalKey(outs[i].record.value);
            var p := |Select(outs, key, i, false)|;
            FirstOffer(Permuted(outs, Preferring(outs, i)), key, p) && Preferring(outs, i)[p] == i
  {
    var key := CanonicalKey(outs[i].record.value);
    var passing := Select(outs, key, i, false);
    var p := |passing|;
    SelectIs(outs, key, i, false);
    PreferringAt(outs, i, key, p);
    hide Select, Preferring;
    forall q | 0 <= q < p ensures !Offers(outs[Preferring(outs, i)[q]], key) {
      PreferringAt(outs, i, key, q);
      assert Preferring(outs, i)[q] in passing;
    }
  }

  /** The files that do not offer the key keep their submission order. */
  lemma OthersKeepOrder(outs: seq<Outcome>, i: nat, key: Key, s: nat, t: nat)
    requires i < |outs| && Offers(outs[i], key) && s < t < |Preferring(outs, i)|
    requires Preferring(outs, i)[s] < |outs| && Preferring(outs, i)[t] < |outs|
    requires !Offers(outs[Preferring(outs, i)[s]], key) && !Offers(outs[Preferring(outs, i)[t]], key)
    ensures Preferring(outs, i)[s] < Preferring(outs, i)[t]
  {
    SelectIs(outs, key, i, false);
    SelectIs(outs, key, i, true);
    PreferringAt(outs, i, key, s);
    PreferringAt(outs, i, key, t);
    hide Select, Preferring, Offers;
    var passing, held := Select(outs, key, i, false), Select(outs, key, i, true);
    assert forall k :: 0 <= k < |held| ==> held[k] in held;
    assert forall k :: 0 <= k < |passing| ==> passing[k] in passing;
  }

  /** Every other new key goes to its first submission, whichever file is preferred. */
  lemma OthersGoFirstComeFirstServed(reports: Reports, outs: seq<Outcome>, i: nat, window: nat, key: Key, q: nat)
    requires Unique(reports) && Coherent(reports, outs) && Contends(outs, i, window)
    requires Reachable(Preferring(outs, i), |outs|, window) && FirstOffer(outs, key, q)
    requires key != CanonicalKey(outs[i].record.value) && key !in KeysOf(reports)
    ensures var final := AbsorbAll(reports, Permuted(outs, Preferring(outs, i)));
            key in KeysOf(final) && Holder(final, key) == outs[q].record.value.hash
  {
    var order := Preferring(outs, i);
    var x := Permuted(outs, order);
    assert forall k :: k in order ==> k < |outs|;
    FullOrderCoversAll(order, |outs|);
    assert q in order;
    var t: nat :| t < |order| && order[t] == q;
    forall s | 0 <= s < t ensures !Offers(x[s], key) {
      if !Offers(outs[order[s]], CanonicalKey(outs[i].record.value)) {
        OthersKeepOrder(outs, i, CanonicalKey(outs[i].record.value), s, t);
      }
    }
    PermutedReshuffles(outs, order, window);
    CoherentReshuffled(reports, outs, x);
    FirstTakesKey(reports, x, key, t);
  }

  lemma OtherKeysTie(reports: Reports, outs: seq<Outcome>, i: nat, j: nat, window: nat, key: Key)
    requires Unique(reports) && Coherent(reports, outs) && Contends(outs, i, window) && Contends(outs, j, window)
    requires Reachable(Preferring(outs, i), |outs|, window) && Reachable(Preferring(outs, j), |outs|, window)
    requires Rivals(outs[i], outs[j]) && key != CanonicalKey(outs[i].record.value)
    requires key in KeysOf(AbsorbAll(reports, Permuted(outs, Preferring(outs, i))))
    ensures var a := AbsorbAll(reports, Permuted(outs, Preferring(outs, i)));
            var b := AbsorbAll(reports, Permuted(outs, Preferring(outs, j)));
            Tied(Permuted(outs, Preferring(outs, i)), a, b, key)
  {
    var x, y := Permuted(outs, Preferring(outs, i)), Permuted(outs, Preferring(outs, j));
    if key in KeysOf(reports) {
      OldHolderStays(reports, x, key);
      OldHolderStays(reports, y, key);
    } else {
      PermutedReshuffles(outs, Preferring(outs, i), window);
      CoherentReshuffled(reports, outs, x);
      var o := HolderWasOffered(reports, x, key);
      assert o in outs;
      var q := FindFirstOffer(outs, key);
      OthersGoFirstComeFirstServed(reports, outs, i, window, key, q);
      OthersGoFirstComeFirstServed(reports, outs, j, window, key, q);
    }
  }

  /** Preferring one rival or the other changes the skips by the difference of their copies. */
  lemma FirstComesFirst(reports: Reports, outs: seq<Outcome>, i: nat, j: nat, window: nat)
    requires Unique(reports) && Coherent(reports, outs) && Contest(reports, outs, i, j, window)
    ensures Reachable(Preferring(outs, i), |outs|, window) && Reachable(Preferring(outs, j), |outs|, window)
    ensures Tally(reports, Permuted(outs, Preferring(outs, i)), Skipped)
            - Tally(reports, Permuted(outs, Preferring(outs, j)), Skipped)
         == Copies(outs, outs[i].record.value.hash) - Copies(outs, outs[j].record.value.hash)
  {
    PreferringIsReachable(outs, i, window);
    PreferringIsReachable(outs, j, window);
    var x, y := Permuted(outs, Preferring(outs, i)), Permuted(outs, Preferring(outs, j));
    var key := CanonicalKey(outs[i].record.value);
    PermutedReshuffles(outs, Preferring(outs, i), window);
    PermutedReshuffles(outs, Preferring(outs, j), window);
    CoherentReshuffled(reports, outs, x);
    CoherentReshuffled(reports, outs, y);
    PreferredIsFirst(outs, i, window);
    PreferredIsFirst(outs, j, window);
    FirstTakesKey(reports, x, key, |Select(outs, key, i, false)|);
    FirstTakesKey(reports, y, key, |Select(outs, key, j, false)|);
    forall k | k in KeysOf(AbsorbAll(reports, x)) && k != key
      ensures Tied(x, AbsorbAll(reports, x), AbsorbAll(reports, y), k)
    {
      OtherKeysTie(reports, outs, i, j, window, k);
    }
    hide Among, Copies, Tied, Tally, AbsorbAll, Permuted, Preferring;
    OneKeyApart(reports, x, y, key);
    AmongReshuffled(outs, x, {outs[i].record.value.hash});
    AmongReshuffled(outs, x, {outs[j].record.value.hash});
  }

  // ----- The exact condition for runs

  /** The holder of a new key is the hash of a contender. */
  lemma HolderContends(reports: Reports, outs: seq<Outcome>, order: seq<nat>, window: nat, key: Key) returns (i: nat)
    requires Unique(reports) && Coherent(reports, outs) && Reachable(order, |outs|, window)
    requires key in KeysOf(AbsorbAll(reports, Permuted(outs, order))) && key !in KeysOf(reports)
    ensures Contends(outs, i, window) && Offers(outs[i], key)
    ensures Holder(AbsorbAll(reports, Permuted(outs, order)), key) == outs[i].record.value.hash
  {
    var x := Permuted(outs, order);
    PermutedReshuffles(outs, order, window);
    CoherentReshuffled(reports, outs, x);
    var o := HolderWasOffered(reports, x, key);
    var p := FindFirstOffer(x, key);
    FirstTakesKey(reports, x, key, p);
    FirstContends(outs, order, window, key, p);
    i := order[p];
  }

  lemma EvenIsEnough(reports: Reports, outs: seq<Outcome>, order: seq<nat>, window: nat)
    requires Unique(reports) && Coherent(reports, outs) && EvenContenders(reports, outs, window) && window >= 1
    requires Reachable(order, |outs|, window)
    ensures Tally(reports, Permuted(outs, order), Skipped) == Tally(reports, outs, Skipped)
  {
    var x, same := Permuted(outs, order), UpTo(|outs|);
    assert Reachable(same, |outs|, window) && Permuted(outs, same) == outs;
    PermutedReshuffles(outs, order, window);
    CoherentReshuffled(reports, outs, x);
    var a, b := AbsorbAll(reports, outs), AbsorbAll(reports, x);
    OrderIndependence(reports, outs, x);
    forall k | k in KeysOf(a) ensures Tied(outs, a, b, k) {
      if k in KeysOf(reports) {
        OldHolderStays(reports, outs, k);
        OldHolderStays(reports, x, k);
      } else {
        var i := HolderContends(reports, outs, same, window, k);
        var j := HolderContends(reports, outs, order, window, k);
        assert Contest(reports, outs, i, j, window);
      }
    }
    TiedSkips(reports, outs, x);
  }

  /** The manifest's skips, and with them its quarantines, are the same for every completion order a
      window allows if and only if the hashes that can come first for a new key come equally often. */
  lemma SkipsOfRuns(reports: Reports, outs: seq<Outcome>, window: nat)
    requires Unique(reports) && Coherent(reports, outs) && window >= 1
    ensures FixedInWindow(reports, outs, window, Skipped) <==> EvenContenders(reports, outs, window)
    ensures FixedInWindow(reports, outs, window, Quarantined) <==> EvenContenders(reports, outs, window)
  {
    forall order | Reachable(order, |outs|, window)
      ensures Tally(reports, Permuted(outs, order), Skipped) + Tally(reports, Permuted(outs, order), Quarantined)
           == Tally(reports, outs, Skipped) + Tally(reports, outs, Quarantined)
    {
      PermutedReshuffles(outs, order, window);
      CoherentReshuffled(reports, outs, Permuted(outs, order));
      OrderIndependence(reports, outs, Permuted(outs, order));
    }
    if EvenContenders(reports, outs, window) {
      forall order | Reachable(order, |outs|, window)
        ensures Tally(reports, Permuted(outs, order), Skipped) == Tally(reports, outs, Skipped)
      {
        EvenIsEnough(reports, outs, order, window);
      }
    }
    if FixedInWindow(reports, outs, window, Skipped) {
      FixedIsEven(reports, outs, window);
    }
    assert FixedInWindow(reports, outs, window, Quarantined) ==> FixedInWindow(reports, outs, window, Skipped);
  }

  lemma FixedIsEven(reports: Reports, outs: seq<Outcome>, window: nat)
    requires Unique(reports) && Coherent(reports, outs) && FixedInWindow(reports, outs, window, Skipped)
    ensures EvenContenders(reports, outs, window)
  {
    forall i: nat, j: nat | Contest(reports, outs, i, j, window)
      ensures Copies(outs, outs[i].record.value.hash) == Copies(outs, outs[j].record.value.hash)
    {
      FirstComesFirst(reports, outs, i, j, window);
    }
  }

  /** What the workers deliver, in submission order. */
  ghost function Delivered(files: seq<string>, pool: Pool): (outs: seq<Outcome>)
    ensures |outs| == |files|
  {
    OutcomesOf(files, pool, UpTo(|files|))
  }

  /** The outcomes of a run whose submissions all succeed, in the order in which it stores them. */
  ghost function Stored(files: seq<string>, pool: Pool, workers: nat): (outs: seq<Outcome>)
    requires Legal(pool) && workers >= 1
    ensures |outs| == |files|
  {
    OutcomesOf(files, pool, OrderOf(pool.wait, |files|, 3 * workers))
  }

  ghost predicate SameWork(pool: Pool, other: Pool) {
    forall i :: pool.deliver(i) == other.deliver(i)
  }

  lemma StoredIsPermuted(files: seq<string>, pool: Pool, other: Pool, workers: nat)
    requires Legal(other) && workers >= 1 && SameWork(pool, other)
    ensures Stored(files, other, workers)
         == Permuted(Delivered(files, pool), OrderOf(other.wait, |files|, 3 * workers))
  {
    var order := OrderOf(other.wait, |files|, 3 * workers);
    forall k | 0 <= k < |order|
      ensures Stored(files, other, workers)[k] == Permuted(Delivered(files, pool), order)[k]
    {
      assert UpTo(|files|)[order[k]] == order[k];
    }
  }

  /** Some pool doing the same work completes the files in any order that the window allows. */
  lemma SomePoolCompletes(files: seq<string>, pool: Pool, workers: nat, order: seq<nat>) returns (other: Pool)
    requires Reachable(order, |files|, 3 * workers) && workers >= 1
    ensures Legal(other) && SameWork(pool, other)
    ensures Stored(files, other, workers) == Permuted(Delivered(files, pool), order)
  {
    other := pool.(wait := Follow(order));
    ReachableIsARun(order, |files|, 3 * workers);
    StoredIsPermuted(files, pool, other, workers);
  }

  /** The importer reports the same skips whatever its executor does with the same work, if and only if
      the contenders for every new key are copied equally often in a window of three times the workers. */
  lemma SkipsOfPools(start: Reports, files: seq<string>, pool: Pool, workers: nat)
    requires Unique(start) && Coherent(start, Delivered(files, pool)) && workers >= 1
    ensures (forall other: Pool :: Legal(other) && SameWork(pool, other) ==>
              Tally(start, Stored(files, other, workers), Skipped) == Tally(start, Delivered(files, pool), Skipped))
            <==> EvenContenders(start, Delivered(files, pool), 3 * workers)
  {
    var outs, window := Delivered(files, pool), 3 * workers;
    SkipsOfRuns(start, outs, window);
    if FixedInWindow(start, outs, window, Skipped) {
      forall other: Pool | Legal(other) && SameWork(pool, other)
        ensures Tally(start, Stored(files, other, workers), Skipped) == Tally(start, outs, Skipped)
      {
        StoredIsPermuted(files, pool, other, workers);
      }
    }
    if forall other: Pool :: Legal(other) && SameWork(pool, other) ==>
         Tally(start, Stored(files, other, workers), Skipped) == Tally(start, outs, Skipped) {
      forall order | Reachable(order, |outs|, window)
        ensures Tally(start, Permuted(outs, order), Skipped) == Tally(start, outs, Skipped)
      {
        var other := SomePoolCompletes(files, pool, workers, order);
      }
    }
  }

  // ----- Windows at least as large as the directory

  lemma EverybodyContends(outs: seq<Outcome>, i: nat)
    requires i < |outs| && Good(outs[i])
    ensures Contends(outs, i, |outs|)
  {
    BelowSize(i);
    SubsetSize(Earlier(outs, i, CanonicalKey(outs[i].record.value)), Below(i));
  }

  /** The same over all permutations, which a window as large as the directory allows: then every hash
      that is offered for a new key can come first. */
  lemma SkipsAreFixed(reports: Reports, outs: seq<Outcome>)
    requires Unique(reports) && Coherent(reports, outs)
    ensures Fixed(reports, outs, Skipped) <==> EvenlyOffered(reports, outs)
    ensures Fixed(reports, outs, Quarantined) <==> EvenlyOffered(reports, outs)
  {
    forall shuffled | Reshuffled(outs, shuffled)
      ensures Tally(reports, shuffled, Skipped) + Tally(reports, shuffled, Quarantined)
           == Tally(reports, outs, Skipped) + Tally(reports, outs, Quarantined)
      ensures EvenlyOffered(reports, outs) ==> Tally(reports, shuffled, Skipped) == Tally(reports, outs, Skipped)
    {
      CoherentReshuffled(reports, outs, shuffled);
      OrderIndependence(reports, outs, shuffled);
      if EvenlyOffered(reports, outs) {
        EvenlyTied(reports, outs, shuffled);
      }
    }
    if Fixed(reports, outs, Skipped) {
      FixedIsEvenlyOffered(reports, outs);
    }
    assert Fixed(reports, outs, Quarantined) ==> Fixed(reports, outs, Skipped);
  }

  lemma EvenlyTied(reports: Reports, outs: seq<Outcome>, shuffled: seq<Outcome>)
    requires Unique(reports) && Coherent(reports, outs) && EvenlyOffered(reports, outs) && Reshuffled(outs, shuffled)
    ensures Tally(reports, shuffled, Skipped) == Tally(reports, outs, Skipped)
  {
    var a, b := AbsorbAll(reports, outs), AbsorbAll(reports, shuffled);
    CoherentReshuffled(reports, outs, shuffled);
    OrderIndependence(reports, outs, shuffled);
    forall k | k in KeysOf(a) ensures Tied(outs, a, b, k) {
      if k in KeysOf(reports) {
        OldHolderStays(reports, outs, k);
        OldHolderStays(reports, shuffled, k);
      } else {
        var o := HolderWasOffered(reports, outs, k);
        var p := HolderWasOffered(reports, shuffled, k);
        assert Rivals(o, p) && p in outs;
      }
    }
    TiedSkips(reports, outs, shuffled);
  }

  lemma FixedIsEvenlyOffered(reports: Reports, outs: seq<Outcome>)
    requires Unique(reports) && Coherent(reports, outs) && Fixed(reports, outs, Skipped)
    ensures EvenlyOffered(reports, outs)
  {
    forall order | Reachable(order, |outs|, |outs|)
      ensures Tally(reports, Permuted(outs, order), Skipped) == Tally(reports, outs, Skipped)
    {
      PermutedReshuffles(outs, order, |outs|);
    }
    FixedIsEven(reports, outs, |outs|);
    forall o, p | o in outs && p in outs && Rivals(o, p) && CanonicalKey(o.record.value) !in KeysOf(reports)
      ensures Copies(outs, o.record.value.hash) == Copies(outs, p.record.value.hash)
    {
      var i: nat :| i < |outs| && outs[i] == o;
      var j: nat :| j < |outs| && outs[j] == p;
      EverybodyContends(outs, i);
      EverybodyContends(outs, j);
      assert Contest(reports, outs, i, j, |outs|);
    }
  }

  /** Two finished runs deliver the same outcomes in two orders. */
  lemma RunsReshuffle(files: seq<string>, pool: Pool, pool': Pool, order: seq<nat>, order': seq<nat>)
    requires Distinct(order) && |order| == |files| && forall k :: k in order ==> k < |files|
    requires Distinct(order') && |order'| == |files| && forall k :: k in order' ==> k < |files|
    requires forall i :: pool.deliver(i) == pool'.deliver(i)
    ensures Reshuffled(OutcomesOf(files, pool, order), OutcomesOf(files, pool', order'))
  {
    var outcome := (i: nat) => OutcomeOf(if i < |files| then files[i] else [], pool.deliver(i));
    FullOrderIsPermutation(order, |files|);
    FullOrderIsPermutation(order', |files|);
    ImageReordered(order, order', outcome);
    assert OutcomesOf(files, pool, order) == Image(order, outcome) by {
      assert forall k :: 0 <= k < |order| ==> order[k] in order;
    }
    assert OutcomesOf(files, pool', order') == Image(order', outcome) by {
      assert forall k :: 0 <= k < |order'| ==> order'[k] in order';
    }
  }

  /** With evenly offered hashes the whole manifest of counts is independent of the schedule. */
  lemma EvenRunsReportAlike(start: Reports, files: seq<string>, pool: Pool, pool': Pool, order: seq<nat>,
                            order': seq<nat>)
    requires Distinct(order) && |order| == |files| && forall k :: k in order ==> k < |files|
    requires Distinct(order') && |order'| == |files| && forall k :: k in order' ==> k < |files|
    requires forall i :: pool.deliver(i) == pool'.deliver(i)
    requires Unique(start) && Coherent(start, OutcomesOf(files, pool, order))
    requires EvenlyOffered(start, OutcomesOf(files, pool, order))
    ensures forall s ::
      Tally(start, OutcomesOf(files, pool, order), s) == Tally(start, OutcomesOf(files, pool', order'), s)
  {
    var outs, outs' := OutcomesOf(files, pool, order), OutcomesOf(files, pool', order');
    RunsReshuffle(files, pool, pool', order, order');
    SkipsAreFixed(start, outs);
    AnyTwoRunsAgree(start, files, pool, pool', order, order');
    forall s ensures Tally(start, outs, s) == Tally(start, outs', s) {
      match s
      case Imported =>
      case Skipped => assert Fixed(start, outs, Skipped);
      case Quarantined => assert Fixed(start, outs, Quarantined);
    }
  }
}
