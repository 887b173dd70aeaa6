/** Device names in the form the API speaks and the form the host sees, and the paged search for a
    disk by device (volume.go). */
module Devices {
  import opened Basics

  const API_PREFIX := "/dev/xvd"
  const LOCAL_PREFIX := "/dev/vd"
  const PAGE_SIZE := 50

  predicate OccursAt(s: string, pat: string, j: nat) {
    j + |pat| <= |s| && s[j..j + |pat|] == pat
  }

  /** The first occurrence of pat in s at or after i. */
  function Find(s: string, pat: string, i: nat): (r: Option<nat>)
    requires i <= |s| + 1
    ensures r.Some? ==> i <= r.value && OccursAt(s, pat, r.value)
    ensures forall j: nat :: i <= j && (r.None? || j < r.value) ==> !OccursAt(s, pat, j)
    decreases |s| + 1 - i
  {
    if i + |pat| > |s| then None
    else if OccursAt(s, pat, i) then Some(i)
    else Find(s, pat, i + 1)
  }

  /** strings.Replace(s, old, new, 1). */
  function ReplaceFirst(s: string, pat: string, sub: string): string {
    var j := Find(s, pat, 0);
    if j.None? then s else s[..j.value] + sub + s[j.value + |pat|..]
  }

  function ApiToLocal(s: string): string {
    ReplaceFirst(s, API_PREFIX, LOCAL_PREFIX)
  }

  function LocalToApi(s: string): string {
    ReplaceFirst(s, LOCAL_PREFIX, API_PREFIX)
  }

  predicate SameDevice(a: string, b: string) {
    ApiToLocal(a) == ApiToLocal(b)
  }

  // ----- Conversion back and forth -----

  /** The first occurrence of pat, if any, comes after an occurrence of other. */
  predicate Before(s: string, other: string, pat: string) {
    var p, o := Find(s, pat, 0), Find(s, other, 0);
    p.None? || (o.Some? && o.value < p.value)
  }

  lemma SpellsOut(s: string, j: nat)
    ensures OccursAt(s, LOCAL_PREFIX, j) <==>
      && j + 7 <= |s| && s[j] == '/' && s[j + 1] == 'd' && s[j + 2] == 'e' && s[j + 3] == 'v' && s[j + 4] == '/'
      && s[j + 5] == 'v' && s[j + 6] == 'd'
    ensures OccursAt(s, API_PREFIX, j) <==>
      && j + 8 <= |s| && s[j] == '/' && s[j + 1] == 'd' && s[j + 2] == 'e' && s[j + 3] == 'v' && s[j + 4] == '/'
      && s[j + 5] == 'x' && s[j + 6] == 'v' && s[j + 7] == 'd'
  {
    if j + 7 <= |s| {
      assert s[j..j + 7] == [s[j], s[j + 1], s[j + 2], s[j + 3], s[j + 4], s[j + 5], s[j + 6]];
    }
    if j + 8 <= |s| {
      assert s[j..j + 8] == [s[j], s[j + 1], s[j + 2], s[j + 3], s[j + 4], s[j + 5], s[j + 6], s[j + 7]];
    }
  }

  predicate IsPrefix(pat: string) {
    pat == LOCAL_PREFIX || pat == API_PREFIX
  }

  /** Occurrences of the two prefixes never overlap. */
  lemma NoOverlap(s: string, p: string, i: nat, q: string, j: nat)
    requires IsPrefix(p) && IsPrefix(q) && OccursAt(s, p, i) && OccursAt(s, q, j)
    ensures i == j ==> p == q
    ensures i < j ==> i + |p| <= j
  {
    SpellsOut(s, i);
    SpellsOut(s, j);
  }

  lemma OccursInFront(s: string, t: string, pat: string, i: nat, j: nat)
    requires i <= |s| && i <= |t| && s[..i] == t[..i] && j + |pat| <= i
    ensures OccursAt(s, pat, j) <==> OccursAt(t, pat, j)
  {
    assert s[j..j + |pat|] == s[..i][j..j + |pat|];
    assert t[j..j + |pat|] == t[..i][j..j + |pat|];
  }

  /** The planted replacement is the first one, exactly when s has none before it. */
  lemma FirstPlanted(s: string, pat: string, sub: string, i: nat)
    requires IsPrefix(pat) && IsPrefix(sub) && pat != sub && Find(s, pat, 0) == Some(i)
    ensures var t := s[..i] + sub + s[i + |pat|..];
      Find(t, sub, 0).Some? && Find(t, sub, 0).value <= i && (Find(t, sub, 0).value == i <==> Before(s, pat, sub))
  {
    var t := s[..i] + sub + s[i + |pat|..];
    assert t[..i] == s[..i];
    assert OccursAt(t, sub, i);
    var p := Find(s, sub, 0);
    if p.Some? {
      NoOverlap(s, sub, p.value, pat, i);
      if p.value < i {
        OccursInFront(s, t, sub, i, p.value);
      }
    }
    var k := Find(t, sub, 0).value;
    if k < i {
      NoOverlap(t, sub, k, sub, i);
      OccursInFront(s, t, sub, i, k);
    }
  }

  lemma ReplaceEarlier(s: string, pat: string, sub: string, i: nat, k: nat)
    requires IsPrefix(pat) && IsPrefix(sub) && pat != sub && OccursAt(s, pat, i)
    requires var t := s[..i] + sub + s[i + |pat|..]; k < i && OccursAt(t, sub, k)
    ensures var t := s[..i] + sub + s[i + |pat|..]; t[..k] + pat + t[k + |sub|..] != s
  {
    var t := s[..i] + sub + s[i + |pat|..];
    assert OccursAt(t, sub, i);
    NoOverlap(t, sub, k, sub, i);
    assert (t[..k] + pat + t[k + |sub|..])[k + 5] == pat[5];
    assert s[k + 5] == t[k + 5] == t[k..k + |sub|][5] == sub[5];
  }

  lemma Restores(s: string, pat: string, sub: string, i: nat)
    requires OccursAt(s, pat, i)
    ensures var t := s[..i] + sub + s[i + |pat|..]; t[..i] + pat + t[i + |sub|..] == s
  {
    var t := s[..i] + sub + s[i + |pat|..];
    assert t[..i] == s[..i];
    assert t[i + |sub|..] == s[i + |pat|..];
    assert s[..i] + s[i..i + |pat|] + s[i + |pat|..] == s;
  }

  lemma ReplaceBackFound(s: string, pat: string, sub: string, i: nat)
    requires IsPrefix(pat) && IsPrefix(sub) && pat != sub && Find(s, pat, 0) == Some(i)
    ensures ReplaceFirst(s[..i] + sub + s[i + |pat|..], sub, pat) == s <==> Before(s, pat, sub)
  {
    var t := s[..i] + sub + s[i + |pat|..];
    FirstPlanted(s, pat, sub, i);
    var k := Find(t, sub, 0).value;
    if k < i {
      ReplaceEarlier(s, pat, sub, i, k);
    } else {
      Restores(s, pat, sub, i);
    }
  }

  /** Replacing and replacing back restores s, exactly when s has no occurrence of the replacement
      unless one of the original comes before it. */
  lemma ReplaceBack(s: string, pat: string, sub: string)
    requires IsPrefix(pat) && IsPrefix(sub) && pat != sub
    ensures ReplaceFirst(ReplaceFirst(s, pat, sub), sub, pat) == s <==> Before(s, pat, sub)
  {
    var o := Find(s, pat, 0);
    if o.Some? {
      ReplaceBackFound(s, pat, sub, o.value);
    } else {
      var k := Find(s, sub, 0);
      assert k.Some? ==> |ReplaceFirst(s, sub, pat)| != |s|;
    }
  }

  /** The two forms of a device name convert into each other without loss exactly when the name does
      not hold the other form's prefix first. */
  lemma DeviceRoundTrips(s: string)
    ensures LocalToApi(ApiToLocal(s)) == s <==> Before(s, API_PREFIX, LOCAL_PREFIX)
    ensures ApiToLocal(LocalToApi(s)) == s <==> Before(s, LOCAL_PREFIX, API_PREFIX)
  {
    ReplaceBack(s, API_PREFIX, LOCAL_PREFIX);
    ReplaceBack(s, LOCAL_PREFIX, API_PREFIX);
  }

  lemma PlainName(pat: string, x: string)
    requires IsPrefix(pat) && '/' !in x
    ensures OccursAt(pat + x, pat, 0)
    ensures forall q: string, j: nat :: IsPrefix(q) && OccursAt(pat + x, q, j) ==> q == pat && j == 0
  {
    forall q: string, j: nat | IsPrefix(q) && OccursAt(pat + x, q, j)
      ensures q == pat && j == 0
    {
      SpellsOut(pat + x, j);
      SpellsOut(pat + x, 0);
    }
  }

  /** On device names as the API and the host give them, the conversions are inverse bijections and two
      names are the same device exactly when they have the same suffix. */
  lemma DeviceForms(x: string, y: string)
    requires '/' !in x && '/' !in y
    ensures ApiToLocal(API_PREFIX + x) == LOCAL_PREFIX + x && LocalToApi(LOCAL_PREFIX + x) == API_PREFIX + x
    ensures SameDevice(API_PREFIX + x, LOCAL_PREFIX + y) <==> x == y
    ensures SameDevice(API_PREFIX + x, API_PREFIX + y) <==> x == y
  {
    PlainName(API_PREFIX, x);
    PlainName(LOCAL_PREFIX, x);
    PlainName(API_PREFIX, y);
    PlainName(LOCAL_PREFIX, y);
    assert Find(API_PREFIX + x, API_PREFIX, 0) == Some(0);
    assert Find(LOCAL_PREFIX + x, LOCAL_PREFIX, 0) == Some(0);
    assert Find(API_PREFIX + y, API_PREFIX, 0) == Some(0);
    assert Find(LOCAL_PREFIX + y, API_PREFIX, 0) == None;
    assert (LOCAL_PREFIX + x)[7..] == x && (LOCAL_PREFIX + y)[7..] == y;
  }

  // ----- The paged search -----

  datatype DiskItem = DiskItem(id: string, device: string)

  datatype SearchError = QueryFailed | DeviceNotFound

  /** The cloud's side: pages count from 1, and a request for page 0 is answered with the first page. */
  function PageOf(n: nat): nat {
    if n == 0 then 1 else n
  }

  function Min(a: nat, b: nat): nat {
    if a < b then a else b
  }

  function Page(items: seq<DiskItem>, n: nat): seq<DiskItem> {
    var p := PageOf(n);
    items[Min((p - 1) * PAGE_SIZE, |items|)..Min(p * PAGE_SIZE, |items|)]
  }

  /** The position of the first disk that satisfies the test, or the number of disks. */
  function FirstWhere(items: seq<DiskItem>, test: DiskItem -> bool): (k: nat)
    ensures k <= |items|
    ensures k < |items| ==> test(items[k])
    ensures forall j :: 0 <= j < k ==> !test(items[j])
  {
    if items == [] || test(items[0]) then 0 else 1 + FirstWhere(items[1..], test)
  }

  /** Walks the pages of 50 until a disk satisfies the test or the pages end. `echoes` says whether the cloud
      reports the page number as requested, 0 included, or the page it gave; in the first case the first
      page is read twice. */
  method SearchPages(items: seq<DiskItem>, test: DiskItem -> bool, echoes: bool, fate: nat -> Fate)
    returns (r: Result<DiskItem, SearchError>, calls: nat)
    ensures if Clean(fate, 0, calls) then
        var k := FirstWhere(items, test);
        r == if k < |items| then Ok(items[k]) else Err(DeviceNotFound)
      else
        r == Err(QueryFailed)
    ensures r == Err(DeviceNotFound) ==>
      calls == (if items == [] then 1 else (|items| + 49) / 50 + if echoes then 1 else 0)
  {
    var n := 0;
    calls := 0;
    while true
      invariant Clean(fate, 0, calls)
      invariant if n == 0 then calls == 0 else if echoes then calls == n else n > 1 && calls == n - 1
      invariant n > 0 ==> (n - 1) * PAGE_SIZE < |items| && FirstWhere(items, test) >= (n - 1) * PAGE_SIZE
      decreases |items| + PAGE_SIZE - n * PAGE_SIZE
    {
      var f := fate(calls);
      calls := calls + 1;
      if f != Delivered {
        return Err(QueryFailed), calls;
      }
      var disks := Page(items, n);
      ghost var from := Min((PageOf(n) - 1) * PAGE_SIZE, |items|);
      for i := 0 to |disks|
        invariant FirstWhere(items, test) >= from + i
      {
        assert disks[i] == items[from + i];
        if test(disks[i]) {
          return Ok(disks[i]), calls;
        }
      }
      var number := if echoes then n else PageOf(n);
      if number * PAGE_SIZE >= |items| {
        return Err(DeviceNotFound), calls;
      }
      n := number + 1;
    }
  }

  function Names(device: string): DiskItem -> bool {
    (i: DiskItem) => SameDevice(i.device, device)
  }

  /** Undisturbed, the paged search is a linear search of all disks for the first naming the device. */
  method GetDiskByDevice(items: seq<DiskItem>, device: string, echoes: bool, fate: nat -> Fate)
    returns (r: Result<DiskItem, SearchError>, calls: nat)
    ensures if Clean(fate, 0, calls) then
        var k := FirstWhere(items, Names(device));
        r == if k < |items| then Ok(items[k]) else Err(DeviceNotFound)
      else
        r == Err(QueryFailed)
  {
    r, calls := SearchPages(items, Names(device), echoes, fate);
  }
}
