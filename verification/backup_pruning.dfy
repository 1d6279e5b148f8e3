/** Retention of backups: which folders survive pruning by total size or by number, stated
    without any order of the directory listing. */
module BackupPruning {
  /** A backup folder; names are compared in order. */
  datatype Folder = Folder(name: nat, size: nat, modTime: int)

  const GIB := 1073741824
  const INT64 := 0x1_0000_0000_0000_0000
  const MAX_INT64 := 0x7fff_ffff_ffff_ffff

  /** Newest first; equally old folders by descending name. */
  predicate Before(a: Folder, b: Folder) {
    if b.modTime == a.modTime then b.name < a.name else b.modTime < a.modTime
  }

  predicate DistinctNames(s: set<Folder>) {
    forall f, g :: f in s && g in s && f.name == g.name ==> f == g
  }

  /** The folder and all that come before it. */
  function Upto(s: set<Folder>, f: Folder): set<Folder> {
    set g | g in s && (g == f || Before(g, f))
  }

  ghost function Total(s: set<Folder>): nat {
    if s == {} then 0
    else
      var f :| f in s;
      f.size + Total(s - {f})
  }

  lemma {:induction false} TotalOf(s: set<Folder>, f: Folder)
    requires f in s
    ensures Total(s) == f.size + Total(s - {f})
  {
    var g :| g in s && Total(s) == g.size + Total(s - {g});
    if g != f {
      TotalOf(s - {g}, f);
      TotalOf(s - {f}, g);
      assert s - {g} - {f} == s - {f} - {g};
    }
  }

  lemma {:induction false} TotalMonotone(s: set<Folder>, t: set<Folder>)
    requires s <= t
    ensures Total(s) <= Total(t)
    decreases |s|
  {
    if s != {} {
      var f :| f in s;
      TotalOf(s, f);
      TotalOf(t, f);
      TotalMonotone(s - {f}, t - {f});
    }
  }

  // ----- what is kept -----

  ghost function KeptBySize(s: set<Folder>, limit: int): set<Folder> {
    set f | f in s && Total(Upto(s, f)) <= limit
  }

  function KeptByNumber(s: set<Folder>, n: int): set<Folder> {
    set f | f in s && |Upto(s, f)| <= n
  }

  /** With a folder it holds every newer one. */
  predicate NewestFirst(k: set<Folder>, s: set<Folder>) {
    k <= s && forall f :: f in k ==> Upto(s, f) <= k
  }

  lemma UptoNested(s: set<Folder>, f: Folder, g: Folder)
    requires g in Upto(s, f)
    ensures Upto(s, g) <= Upto(s, f)
  {
  }

  /** Of any two folders one comes before the other. */
  lemma UptoTotal(s: set<Folder>, f: Folder, g: Folder)
    requires DistinctNames(s) && f in s && g in s
    ensures g in Upto(s, f) || f in Upto(s, g)
  {
  }

  /** A set closed under newer folders is all of what comes up to its oldest one. */
  lemma {:induction false} Oldest(k: set<Folder>) returns (f: Folder)
    requires DistinctNames(k) && k != {}
    ensures f in k && Upto(k, f) == k
    decreases |k|
  {
    var g :| g in k;
    if k == {g} {
      f := g;
    } else {
      var rest := k - {g};
      assert k == rest + {g};
      var o := Oldest(rest);
      UptoTotal(k, o, g);
      f := if g in Upto(k, o) then o else g;
      assert Upto(k, o) == rest + Upto({g}, o) by {
        assert forall x :: x in rest ==> x in Upto(rest, o);
      }
      forall x | x in k ensures x in Upto(k, f) {
        if x in rest {
          assert x in Upto(rest, o);
        }
      }
    }
  }

  /** Pruning by size keeps a newest-first part within the limit, and the largest such. */
  lemma KeptBySizeIsLongest(s: set<Folder>, limit: int)
    requires DistinctNames(s) && limit >= 0
    ensures NewestFirst(KeptBySize(s, limit), s) && Total(KeptBySize(s, limit)) <= limit
    ensures forall k :: NewestFirst(k, s) && Total(k) <= limit ==> k <= KeptBySize(s, limit)
  {
    var kept := KeptBySize(s, limit);
    forall f, g | f in kept && g in Upto(s, f) ensures g in kept {
      UptoNested(s, f, g);
      TotalMonotone(Upto(s, g), Upto(s, f));
    }
    if kept != {} {
      var o := Oldest(kept);
      assert Upto(s, o) == kept by {
        assert Upto(kept, o) <= Upto(s, o) <= kept;
      }
    }
    forall k, f | NewestFirst(k, s) && Total(k) <= limit && f in k ensures f in kept {
      TotalMonotone(Upto(s, f), k);
    }
  }

  /** Pruning by number keeps the newest `n`, or all if there are no more. */
  lemma KeptByNumberIsNewest(s: set<Folder>, n: nat)
    requires DistinctNames(s)
    ensures NewestFirst(KeptByNumber(s, n), s)
    ensures |KeptByNumber(s, n)| == if |s| < n then |s| else n
  {
    forall f, g | f in KeptByNumber(s, n) && g in Upto(s, f) ensures g in KeptByNumber(s, n) {
      UptoNested(s, f, g);
      Subset(Upto(s, g), Upto(s, f));
    }
    CountKept(s, n);
  }

  lemma Subset(a: set<Folder>, b: set<Folder>)
    requires a <= b
    ensures |a| <= |b|
  {
    assert b == a + (b - a);
  }

  lemma {:induction false} CountKept(s: set<Folder>, n: nat)
    requires DistinctNames(s)
    ensures |KeptByNumber(s, n)| == if |s| < n then |s| else n
    decreases |s|
  {
    if s == {} {
      assert KeptByNumber(s, n) == {};
    } else {
      var o := Oldest(s);
      var rest := s - {o};
      CountKept(rest, n);
      forall f | f in rest ensures Upto(s, f) == Upto(rest, f) {
        assert f in Upto(s, o);
      }
      if |s| <= n {
        assert KeptByNumber(s, n) == KeptByNumber(rest, n) + {o};
      } else {
        assert KeptByNumber(s, n) == KeptByNumber(rest, n);
      }
    }
  }

  /** With a folder every one modified later is kept, and of equally old ones every one of
      a greater name. */
  lemma NewerIsKept(s: set<Folder>, limit: int, f: Folder, g: Folder)
    requires f in s && g in s && (g.modTime > f.modTime || (g.modTime == f.modTime && g.name > f.name))
    ensures f in KeptBySize(s, limit) ==> g in KeptBySize(s, limit)
    ensures f in KeptByNumber(s, limit) ==> g in KeptByNumber(s, limit)
  {
    UptoNested(s, f, g);
    TotalMonotone(Upto(s, g), Upto(s, f));
    Subset(Upto(s, g), Upto(s, f));
  }

  // ----- the width of the limit -----

  /** A value as a signed 64-bit integer holds it. */
  function Wrap(x: int): (r: int)
    ensures -MAX_INT64 - 1 <= r <= MAX_INT64
    ensures -MAX_INT64 - 1 <= x <= MAX_INT64 ==> r == x
  {
    (x + MAX_INT64 + 1) % INT64 - MAX_INT64 - 1
  }

  function CutOff(sizeInGb: int): int {
    Wrap(GIB * sizeInGb)
  }

  /** The limit in bytes is the configured one for every listing exactly below 2^33 GiB;
      from there on it wraps and folders within the limit are deleted. */
  lemma CutOffIsExact(sizeInGb: nat)
    requires 1 <= sizeInGb <= MAX_INT64
    ensures (forall s :: DistinctNames(s) && Total(s) <= MAX_INT64 ==>
              KeptBySize(s, CutOff(sizeInGb)) == KeptBySize(s, GIB * sizeInGb))
            <==> sizeInGb < 0x2_0000_0000
  {
    if sizeInGb >= 0x2_0000_0000 {
      var f := WrappedAway(sizeInGb);
      assert f in KeptBySize({f}, GIB * sizeInGb) && f !in KeptBySize({f}, CutOff(sizeInGb));
      assert DistinctNames({f});
    }
  }

  /** A folder small enough for the configured limit that the wrapped one deletes. */
  lemma WrappedAway(sizeInGb: nat) returns (f: Folder)
    requires 0x2_0000_0000 <= sizeInGb <= MAX_INT64
    ensures Total({f}) == f.size && Upto({f}, f) == {f} && f.size <= MAX_INT64
    ensures CutOff(sizeInGb) < f.size <= GIB * sizeInGb
  {
    var w := CutOff(sizeInGb);
    assert w < MAX_INT64 by {
      assert (w + MAX_INT64 + 1) % GIB == 0;
    }
    f := Folder(0, if w < 0 then 0 else w + 1, 0);
    TotalOf({f}, f);
    assert {f} - {f} == {};
  }

  // ----- the command -----

  /** Newest first, without two folders of the same name. */
  predicate Sorted(q: seq<Folder>) {
    forall i, j :: 0 <= i < j < |q| ==> Before(q[i], q[j])
  }

  ghost predicate Listing(q: seq<Folder>, s: set<Folder>) {
    (forall f :: f in q <==> f in s) && forall i, j :: 0 <= i < j < |q| ==> q[i].name != q[j].name
  }

  function SetOf(q: seq<Folder>): set<Folder> {
    set f | f in q
  }

  lemma SortedUpto(q: seq<Folder>, k: nat)
    requires Sorted(q) && k < |q|
    ensures Upto(SetOf(q), q[k]) == SetOf(q[..k + 1])
    ensures SetOf(q[..k + 1]) - {q[k]} == SetOf(q[..k]) && q[k] in SetOf(q[..k + 1])
  {
  }

  /** Sorts the folders in place, newest first. */
  method Sort(b: array<Folder>)
    modifies b
    requires forall i, j :: 0 <= i < j < b.Length ==> b[i].name != b[j].name
    ensures Sorted(b[..]) && multiset(b[..]) == multiset(old(b[..]))
  {
    for i := 0 to b.Length
      invariant forall p, q :: 0 <= p < q < b.Length ==> b[p].name != b[q].name
      invariant forall p, q :: 0 <= p < q < i ==> Before(b[p], b[q])
      invariant multiset(b[..]) == multiset(old(b[..]))
    {
      var j := i;
      while j > 0 && Less(b, j, j - 1)
        invariant 0 <= j <= i
        invariant forall p, q :: 0 <= p < q < b.Length ==> b[p].name != b[q].name
        invariant forall p, q :: 0 <= p < q <= i && p != j && q != j ==> Before(b[p], b[q])
        invariant forall q :: j < q <= i ==> Before(b[j], b[q])
        invariant multiset(b[..]) == multiset(old(b[..]))
      {
        Swap(b, j, j - 1);
        j := j - 1;
      }
    }
  }

  predicate Less(b: array<Folder>, i: nat, j: nat)
    reads b
    requires i < b.Length && j < b.Length
  {
    if b[j].modTime == b[i].modTime then b[j].name < b[i].name else b[j].modTime < b[i].modTime
  }

  method Swap(b: array<Folder>, i: nat, j: nat)
    modifies b
    requires i < b.Length && j < b.Length
    ensures b[..] == old(b[..])[i := old(b[j])][j := old(b[i])]
    ensures multiset(b[..]) == multiset(old(b[..]))
  {
    var tmp := b[i];
    b[i] := b[j];
    b[j] := tmp;
  }

  class BackupDirectory {
    var folders: set<Folder>

    /** The listing may come in any order. */
    method ListAll(listing: seq<Folder>) returns (b: array<Folder>)
      requires Listing(listing, folders)
      ensures fresh(b) && b[..] == listing
    {
      b := new Folder[|listing|](k requires 0 <= k < |listing| => listing[k]);
    }

    method Remove(f: Folder, fails: set<Folder>) returns (ok: bool)
      modifies this
      ensures ok <==> f !in fails
      ensures folders == if ok then old(folders) - {f} else old(folders)
    {
      ok := f !in fails;
      if ok {
        folders := folders - {f};
      }
    }

    /** Keeps the longest newest-first part whose sizes stay within the limit; `fails` are
        the folders that cannot be deleted. */
    method RetainBySizeGb(sizeInGb: int, listing: seq<Folder>, fails: set<Folder>) returns (ok: bool)
      requires Listing(listing, folders) && DistinctNames(folders) && Total(folders) <= MAX_INT64
      modifies this
      ensures var kept := KeptBySize(old(folders), CutOff(sizeInGb));
              && (ok <==> old(folders) - kept !! fails)
              && (ok ==> folders == kept)
              && kept <= folders <= old(folders)
    {
      hide KeptBySize, Wrap, Sorted, Listing;
      ghost var all := folders;
      var b := ListAll(listing);
      SortListing(b, all);
      var cutOffBytes := CutOff(sizeInGb);
      var toRemove := BeyondSize(b, cutOffBytes, all);
      KeptWithin(all, cutOffBytes);
      assert (set f | f in toRemove) == all - KeptBySize(all, cutOffBytes);
      assert KeptBySize(all, cutOffBytes) == all - (all - KeptBySize(all, cutOffBytes));
      ok := RemoveAll(toRemove, fails);
    }

    /** The folders with which the accumulated size exceeds the limit. */
    method BeyondSize(b: array<Folder>, cutOffBytes: int, ghost all: set<Folder>) returns (toRemove: seq<Folder>)
      requires Sorted(b[..]) && SetOf(b[..]) == all && Total(all) <= MAX_INT64
      ensures forall f :: f in toRemove <==> f in all && f !in KeptBySize(all, cutOffBytes)
    {
      hide KeptBySize, Wrap, Sorted;
      ghost var q := b[..];
      var accBytes := 0;
      toRemove := [];
      assert SetOf(q[..0]) == {};
      for k := 0 to b.Length
        invariant accBytes == Total(SetOf(q[..k]))
        invariant forall f :: f in toRemove <==> f in q[..k] && f !in KeptBySize(all, cutOffBytes)
      {
        NextTotal(all, q, k, cutOffBytes);
        assert q[..k + 1] == q[..k] + [q[k]];
        accBytes := Wrap(accBytes + b[k].size);
        if accBytes > cutOffBytes {
          toRemove := toRemove + [b[k]];
        }
      }
      assert q[..|q|] == q;
      assert forall f :: f in q <==> f in SetOf(q);
    }

    method SortListing(b: array<Folder>, ghost all: set<Folder>)
      requires Listing(b[..], all)
      modifies b
      ensures Sorted(b[..]) && SetOf(b[..]) == all && |b[..]| == |all|
    {
      ghost var listing := b[..];
      forall i, j | 0 <= i < j < b.Length ensures b[i].name != b[j].name {
        assert listing[i].name != listing[j].name;
      }
      NumberOf(listing, all);
      Sort(b);
      SameListing(listing, b[..], all);
    }

    method RemoveAll(toRemove: seq<Folder>, fails: set<Folder>) returns (ok: bool)
      modifies this
      ensures ok <==> (set f | f in toRemove) !! fails
      ensures old(folders) - (set f | f in toRemove) <= folders <= old(folders)
      ensures ok ==> folders == old(folders) - set f | f in toRemove
    {
      for k := 0 to |toRemove|
        invariant folders == old(folders) - set f | f in toRemove[..k]
        invariant (set f | f in toRemove[..k]) !! fails
      {
        assert toRemove[..k + 1] == toRemove[..k] + [toRemove[k]];
        ok := Remove(toRemove[k], fails);
        if !ok {
          assert toRemove[k] in toRemove;
          return;
        }
      }
      assert toRemove[..|toRemove|] == toRemove;
      ok := true;
    }

    /** Keeps the newest folders up to their number. */
    method RetainByNumber(maxNumBackups: nat, listing: seq<Folder>, fails: set<Folder>) returns (ok: bool)
      requires Listing(listing, folders) && DistinctNames(folders)
      modifies this
      ensures var kept := KeptByNumber(old(folders), maxNumBackups);
              && (ok <==> old(folders) - kept !! fails)
              && (ok ==> folders == kept)
              && kept <= folders <= old(folders)
    {
      var b := ListAll(listing);
      ghost var all := folders;
      NumberOf(listing, all);
      if b.Length <= maxNumBackups {
        forall f | f in all ensures f in KeptByNumber(all, maxNumBackups) { Subset(Upto(all, f), all); }
        return true;
      }
      SortListing(b, all);
      ghost var q := b[..];
      forall k | 0 <= k < |q| ensures q[k] in KeptByNumber(all, maxNumBackups) <==> k < maxNumBackups {
        SortedUpto(q, k);
        SortedCount(q, k + 1);
        assert q[k] in q;
      }
      ok := RemoveAll(b[maxNumBackups..], fails);
      forall f ensures f in q[maxNumBackups..] <==> f in all && f !in KeptByNumber(all, maxNumBackups) {
        if f in all {
          assert f in q;
          var k :| 0 <= k < |q| && q[k] == f;
          assert k >= maxNumBackups ==> q[maxNumBackups..][k - maxNumBackups] == f;
        }
      }
      assert old(folders) - KeptByNumber(all, maxNumBackups) == set f | f in q[maxNumBackups..];
    }
  }

  lemma KeptWithin(s: set<Folder>, limit: int)
    ensures KeptBySize(s, limit) <= s
  {
  }

  /** One more folder of the sorted listing. */
  lemma NextTotal(s: set<Folder>, q: seq<Folder>, k: nat, limit: int)
    requires Sorted(q) && k < |q| && SetOf(q) == s && Total(s) <= MAX_INT64
    ensures q[k] in s
    ensures Total(SetOf(q[..k + 1])) == Total(SetOf(q[..k])) + q[k].size
    ensures Wrap(Total(SetOf(q[..k])) + q[k].size) == Total(SetOf(q[..k + 1]))
    ensures q[k] in KeptBySize(s, limit) <==> Total(SetOf(q[..k + 1])) <= limit
  {
    assert q[k] in q;
    SortedUpto(q, k);
    TotalOf(SetOf(q[..k + 1]), q[k]);
    TotalMonotone(SetOf(q[..k + 1]), s);
  }

  lemma SameListing(listing: seq<Folder>, q: seq<Folder>, s: set<Folder>)
    requires Listing(listing, s) && multiset(q) == multiset(listing)
    ensures SetOf(q) == s && forall f :: f in q <==> f in s
  {
    forall f ensures f in q <==> f in s {
      assert f in multiset(q) <==> f in multiset(listing);
    }
  }

  lemma {:induction false} NumberOf(listing: seq<Folder>, s: set<Folder>)
    requires Listing(listing, s)
    ensures |s| == |listing|
    decreases |listing|
  {
    if listing != [] {
      var before, f := listing[..|listing| - 1], listing[|listing| - 1];
      assert listing == before + [f];
      forall g ensures g in before <==> g in s - {f} {
        assert g in listing <==> g in before || g == f;
      }
      NumberOf(before, s - {f});
    }
  }

  lemma {:induction false} SortedCount(q: seq<Folder>, k: nat)
    requires Sorted(q) && k <= |q|
    ensures |SetOf(q[..k])| == k
  {
    if k > 0 {
      SortedUpto(q, k - 1);
      SortedCount(q, k - 1);
    }
  }
}
