/** Dynamic provisioning: the size of the disk created for a claim, and the ledger of disks (volume.go). */
module Provisioner {
  import opened Basics
  import opened Decimal
  import opened Codec

  // ----- Sizes -----

  /** A requested amount, value * 10^scale. */
  datatype Quantity = Quantity(value: goint, scale: int)

  const GIGA := 9

  predicate Fits(n: int) {
    INT_MIN <= n <= INT_MAX
  }

  /** 64-bit wrap-around. */
  function Wrap(n: int): goint {
    (n - INT_MIN) % 0x1_0000_0000_0000_0000 + INT_MIN
  }

  function Abs(n: int): nat {
    if n < 0 then -n else n
  }

  /** Go's division and remainder, which truncate. */
  function GoDiv(n: int, m: nat): int
    requires m > 0
  {
    if n < 0 then -(-n / m) else n / m
  }

  function GoMod(n: int, m: nat): int
    requires m > 0
  {
    if n < 0 then -(-n % m) else n % m
  }

  function CeilDiv(base: nat, p: nat): nat
    requires p > 0
  {
    if base % p == 0 then base / p else base / p + 1
  }

  /** base / 10^scale, rounded away from zero. */
  function ScaledDown(base: int, scale: nat): int {
    if base < 0 then 0 - CeilDiv(-base, Pow10(scale)) else CeilDiv(base, Pow10(scale))
  }

  /** What is left of base * 10^scale when it does not fit: it wraps around for the powers written out, and
      is zero otherwise. */
  function Leftover(base: goint, scale: nat): goint {
    if scale in {1, 2, 3, 6, 9} && base != INT_MIN then Wrap(base * Pow10(scale)) else 0
  }

  function ScaledUp(base: goint, scale: nat): goint {
    var n := base * Pow10(scale);
    if Fits(n) then n else Leftover(base, scale)
  }

  /** base divided by p, towards zero, is value, with cut left over. */
  ghost predicate Split(base: int, value: int, p: nat, cut: nat) {
    Abs(base) == Abs(value) * p + cut && cut < p && (if base < 0 then value <= 0 else value >= 0)
  }

  ghost function CutMore(value: int, p: nat, cut: nat): nat {
    Abs(value) % 10 * p + cut
  }

  lemma SplitStep(base: int, value: int, p: nat, cut: nat)
    requires Split(base, value, p, cut)
    ensures Split(base, GoDiv(value, 10), 10 * p, CutMore(value, p, cut))
    ensures CutMore(value, p, cut) != 0 <==> GoMod(value, 10) != 0 || cut != 0
  {
    var v, r := Abs(value) / 10, Abs(value) % 10;
    assert Abs(value) == 10 * v + r;
    assert Abs(value) * p == v * (10 * p) + r * p;
    MulMonotonic(r, 9, p);
    if r != 0 {
      MulMonotonic(1, r, p);
    }
  }

  lemma Pow10Monotonic(m: nat, n: nat)
    requires m <= n
    ensures Pow10(m) <= Pow10(n)
  {
  }

  /** What was cut off so far decides the rounding, once all digits are dealt with or none are left. */
  lemma SplitIsScaled(base: int, value: int, n: nat, cut: nat, scale: nat)
    requires Split(base, value, Pow10(n), cut) && (n == scale || (n < scale && value == 0))
    ensures ScaledDown(base, scale) == if cut == 0 then value else if base > 0 then value + 1 else value - 1
  {
    Pow10Monotonic(n, scale);
    assert value == 0 ==> Abs(value) * Pow10(n) == Abs(value) * Pow10(scale) == 0;
    DivUnique(Abs(base), Pow10(scale), Abs(value), cut);
  }

  /** Divides by ten `scale` times, remembering whether anything was cut off, and rounds away from zero. */
  method NegativeScale(base: int, scale: nat) returns (result: int)
    ensures result == ScaledDown(base, scale)
  {
    if scale == 0 {
      return base;
    }
    var value, fraction := base, false;
    ghost var cut: nat := 0;
    for i := 0 to scale
      invariant Split(base, value, Pow10(i), cut)
      invariant fraction <==> cut != 0
    {
      SplitStep(base, value, Pow10(i), cut);
      cut := CutMore(value, Pow10(i), cut);
      if !fraction && GoMod(value, 10) != 0 {
        fraction := true;
      }
      value := GoDiv(value, 10);
      if value == 0 {
        SplitIsScaled(base, value, i + 1, cut, scale);
        return if !fraction then 0 else if base > 0 then 1 else -1;
      }
    }
    SplitIsScaled(base, value, scale, cut, scale);
    if fraction {
      value := if base > 0 then value + 1 else value - 1;
    }
    return value;
  }

  lemma DivUnique(base: nat, p: nat, q: nat, r: nat)
    requires p > 0 && base == q * p + r && r < p
    ensures base / p == q && base % p == r
  {
    var q', r' := base / p, base % p;
    assert base == q' * p + r';
    if q' < q {
      assert (q' + 1) * p == q' * p + p;
      MulMonotonic(q' + 1, q, p);
    } else if q < q' {
      assert (q + 1) * p == q * p + p;
      MulMonotonic(q + 1, q', p);
    }
  }

  lemma MulMonotonic(m: int, n: int, p: nat)
    requires m <= n
    ensures m * p <= n * p
  {
  }

  lemma WrapOnce(n: int) returns (k: int)
    ensures Wrap(n) == n + k * 0x1_0000_0000_0000_0000
    ensures Fits(n) ==> Wrap(n) == n
  {
    k := -((n - INT_MIN) / 0x1_0000_0000_0000_0000);
  }

  lemma GoDivExact(a: int, b: nat)
    requires b > 0
    ensures GoDiv(a * b, b) == a
  {
    MulMonotonic(0, Abs(a), b);
    DivUnique(Abs(a) * b, b, Abs(a), 0);
    assert Abs(a * b) == Abs(a) * b;
  }

  lemma GoDivClose(c: int, b: nat)
    requires b > 0
    ensures Abs(c - GoDiv(c, b) * b) < b
  {
    assert Abs(c) == Abs(c) / b * b + Abs(c) % b;
    assert GoDiv(c, b) * b == if c < 0 then -(Abs(c) / b * b) else Abs(c) / b * b;
  }

  /** Dividing the wrapped product back tells exactly whether it overflowed. */
  lemma DividesBack(a: goint, b: nat)
    requires 0 < b <= 1_000_000_000
    ensures GoDiv(Wrap(a * b), b) == a <==> Fits(a * b)
  {
    var c := Wrap(a * b);
    var k := WrapOnce(a * b);
    GoDivExact(a, b);
    GoDivClose(c, b);
    if GoDiv(c, b) == a {
      assert k == 0;
    }
  }

  method MultiplyScale(a: goint, b: nat) returns (c: goint, ok: bool)
    requires 1 < b <= 1_000_000_000
    ensures ok <==> Fits(a * b)
    ensures c == if a == INT_MIN then 0 else Wrap(a * b)
  {
    var _ := WrapOnce(a * b);
    if a == 0 || a == 1 {
      return a * b, true;
    }
    if a == INT_MIN {
      return 0, false;
    }
    DividesBack(a, b);
    c := Wrap(a * b);
    return c, GoDiv(c, b) == a;
  }

  lemma Powers()
    ensures Pow10(1) == 10 && Pow10(2) == 100 && Pow10(3) == 1000
    ensures Pow10(6) == 1_000_000 && Pow10(9) == 1_000_000_000
  {
    assert Pow10(3) == 1000;
    assert Pow10(6) == 1_000_000;
  }

  /** Multiplies at once for the powers written out, and by ten `scale` times for others. The caller ignores
      `ok`. */
  method PositiveScale(base: goint, scale: nat) returns (result: goint, ok: bool)
    ensures result == ScaledUp(base, scale)
    ensures ok <==> Fits(base * Pow10(scale))
  {
    Powers();
    if scale == 0 {
      return base, true;
    }
    if scale in {1, 2, 3, 6, 9} {
      var _ := WrapOnce(base * Pow10(scale));
      result, ok := MultiplyScale(base, Pow10(scale));
      return;
    }
    var value: goint := base;
    for i := 0 to scale
      invariant value == base * Pow10(i)
    {
      assert value * 10 == base * Pow10(i + 1);
      var next, fits := MultiplyScale(value, 10);
      if !fits {
        StaysOutside(base, i + 1, scale);
        return 0, false;
      }
      var _ := WrapOnce(value * 10);
      value := next;
    }
    return value, true;
  }

  lemma {:induction false} StaysOutside(base: goint, m: nat, n: nat)
    requires m <= n && !Fits(base * Pow10(m))
    ensures !Fits(base * Pow10(n))
  {
    if m < n {
      StaysOutside(base, m, n - 1);
      var x := base * Pow10(n - 1);
      assert base * Pow10(n) == 10 * x;
    }
  }

  /** The amount in units of 10^unit as the code computes it. */
  function Scaled(q: Quantity, unit: int): int {
    if q.scale < unit then ScaledDown(q.value, unit - q.scale) else ScaledUp(q.value, q.scale - unit)
  }

  /** Short of overflow, the amount of a request is the least number of units that covers it. */
  method ScaledValue(q: Quantity, unit: int) returns (n: int)
    ensures n == Scaled(q, unit)
    ensures q.value >= 0 && !Overflows(q, unit) ==> forall m :: Covers(m, unit, q) <==> m >= n
  {
    if q.value >= 0 && !Overflows(q, unit) {
      forall m
        ensures Covers(m, unit, q) <==> m >= Scaled(q, unit)
      {
        ScaledIsLeast(q, unit, m);
      }
    }
    if q.scale < unit {
      n := NegativeScale(q.value, unit - q.scale);
    } else {
      var result, _ := PositiveScale(q.value, q.scale - unit);
      n := result;
    }
  }

  /** n units of 10^unit are enough for q. */
  predicate Covers(n: int, unit: int, q: Quantity) {
    if q.scale < unit then n * Pow10(unit - q.scale) >= q.value else n >= q.value * Pow10(q.scale - unit)
  }

  predicate Overflows(q: Quantity, unit: int) {
    q.scale >= unit && !Fits(q.value * Pow10(q.scale - unit))
  }

  lemma CeilDivIsLeast(base: nat, p: nat, m: int)
    requires p > 0
    ensures m * p >= base <==> m >= CeilDiv(base, p)
  {
    var c := CeilDiv(base, p);
    assert base == base / p * p + base % p;
    if m >= c {
      MulMonotonic(c, m, p);
      assert (base / p + 1) * p == base / p * p + p;
    } else {
      MulMonotonic(m, c - 1, p);
      assert (c - 1) * p < base;
    }
  }

  lemma ScaledIsLeast(q: Quantity, unit: int, m: int)
    requires q.value >= 0 && !Overflows(q, unit)
    ensures Covers(m, unit, q) <==> m >= Scaled(q, unit)
  {
    if q.scale < unit {
      CeilDivIsLeast(q.value, Pow10(unit - q.scale), m);
    }
  }

  lemma NegativeIsCovered(q: Quantity, unit: int, m: int)
    requires q.value < 0
    ensures m >= 0 ==> Covers(m, unit, q)
    ensures !Overflows(q, unit) ==> Scaled(q, unit) <= 0
  {
    if q.scale < unit {
      if m >= 0 {
        MulMonotonic(0, m, Pow10(unit - q.scale));
      }
    } else {
      MulMonotonic(q.value, 0, Pow10(q.scale - unit));
    }
  }

  function MinSize(category: string): nat {
    if category == "cloud" || category == "ephemeral" then 5
    else if category == "ephemeral_ssd" || category == "cloud_efficiency" || category == "cloud_ssd" then 20
    else 5
  }

  function SizeOf(q: Quantity, category: string): nat {
    if Scaled(q, GIGA) < MinSize(category) then MinSize(category) else Scaled(q, GIGA)
  }

  /** No disk is smaller than 20 gigabytes in the three categories that ask for it, and 5 in every other,
      unknown ones included; a request that 5 gigabytes cover gets exactly that. */
  lemma Floor(q: Quantity, category: string)
    ensures var floor := if category in {"ephemeral_ssd", "cloud_efficiency", "cloud_ssd"} then 20 else 5;
      && SizeOf(q, category) >= floor
      && (q.value >= 0 && !Overflows(q, 9) && Covers(5, 9, q) ==> SizeOf(q, category) == floor)
  {
    if q.value >= 0 && !Overflows(q, GIGA) {
      ScaledIsLeast(q, GIGA, 5);
    }
  }

  /** The least whole number of gigabytes that covers the request and the category's minimum. */
  ghost predicate RightSize(size: nat, q: Quantity, category: string) {
    && Covers(size, GIGA, q) && size >= MinSize(category)
    && forall m: nat :: m < size ==> !Covers(m, GIGA, q) || m < MinSize(category)
  }

  /** Scaling the request does not overflow; for a negative request, or what overflow leaves is no more than
      the minimum. */
  predicate Scalable(q: Quantity, category: string) {
    !Overflows(q, GIGA) || (q.value < 0 && Leftover(q.value, q.scale - GIGA) <= MinSize(category))
  }

  lemma SizeIsRight(q: Quantity, category: string)
    ensures RightSize(SizeOf(q, category), q, category) <==> Scalable(q, category)
  {
    var size := SizeOf(q, category);
    if q.value < 0 {
      forall m: nat
        ensures Covers(m, GIGA, q)
      {
        NegativeIsCovered(q, GIGA, m);
      }
      if size > MinSize(category) {
        assert Covers(MinSize(category), GIGA, q);
      }
    } else if !Overflows(q, GIGA) {
      forall m: nat
        ensures Covers(m, GIGA, q) <==> m >= Scaled(q, GIGA)
      {
        ScaledIsLeast(q, GIGA, m);
      }
    } else {
      MulMonotonic(0, q.value, Pow10(q.scale - GIGA));
    }
  }

  /** A positive request that overflows gets what the overflow leaves, at least the minimum, and the disk
      never covers it. */
  lemma OverflowedSize(q: Quantity, category: string)
    requires q.value > 0 && Overflows(q, GIGA)
    ensures var gap, size := q.scale - GIGA, SizeOf(q, category);
      && (gap !in {1, 2, 3, 6, 9} ==> size == MinSize(category))
      && (gap in {1, 2, 3, 6, 9} ==>
          var n := Wrap(q.value * Pow10(gap)); size == if n < MinSize(category) then MinSize(category) else n)
      && !Covers(size, GIGA, q)
  {
    MulMonotonic(0, q.value, Pow10(q.scale - GIGA));
  }

  /** Both happen: the smallest disk, and one of an unrelated size. */
  lemma HugeRequests()
    ensures var q := Quantity(10_000_000_000, 18); Overflows(q, GIGA) && SizeOf(q, "cloud") == 5
    ensures var q := Quantity(20_000_000_000, 18);
      Overflows(q, GIGA) && SizeOf(q, "cloud") == 1_553_255_926_290_448_384
  {
    Powers();
  }

  method DiskSize(q: Quantity, category: string) returns (size: nat)
    ensures size == SizeOf(q, category)
    ensures q.value >= 0 ==> (RightSize(size, q, category) <==> !Overflows(q, GIGA))
    ensures q.value < 0 ==> (RightSize(size, q, category) <==> Scalable(q, category))
  {
    SizeIsRight(q, category);
    var n := ScaledValue(q, GIGA);
    var minSize := MinSize(category);
    if n < minSize {
      n := minSize;
    }
    return n;
  }

  // ----- Claims -----

  datatype Claim = Claim(volumeName: string, hasSelector: bool, accessModes: seq<string>,
                         parameters: Option<map<string, string>>, request: Quantity)

  const STORAGE_FIELDS: Schema := [Field("fsType", StringKind), Field("diskCategory", StringKind)]

  const STORAGE_DEFAULTS: seq<Value> := [Str("ext4"), Str("")]

  /** The storage options of a claim; a failure to read them is ignored. */
  function StorageOptions(c: Claim): (r: seq<Value>)
    ensures Typed(STORAGE_FIELDS, r)
  {
    if c.parameters.None? then
      STORAGE_DEFAULTS
    else
      var m := c.parameters.value;
      Filled(STORAGE_FIELDS, m, "", STORAGE_DEFAULTS, FirstBad(STORAGE_FIELDS, m, "", 0))
  }

  function Category(c: Claim): string {
    StorageOptions(c)[1].s
  }

  /** The category is what the parameters say, or empty. */
  lemma CategoryFromParameters(c: Claim)
    ensures Category(c) ==
      if c.parameters.Some? && "diskCategory" in c.parameters.value then c.parameters.value["diskCategory"] else ""
  {
    if c.parameters.Some? {
      var m := c.parameters.value;
      assert "" + "diskCategory" == "diskCategory";
      var k := FirstBad(STORAGE_FIELDS, m, "", 0);
      assert k == 2;
    }
  }

  predicate Provisionable(c: Claim) {
    !c.hasSelector && "ReadWriteOnce" in c.accessModes && Category(c) != ""
  }

  // ----- The ledger -----

  datatype Disk = Disk(name: string, category: string, size: nat)

  /** A persistent volume: its disk, and its capacity in gigabytes. */
  datatype Volume = Volume(name: string, diskId: string, capacity: nat)

  function DiskId(n: nat): string {
    "d-" + Itoa(n)
  }

  lemma DiskIdInjective(m: nat, n: nat)
    requires DiskId(m) == DiskId(n)
    ensures m == n
  {
    assert DiskId(m)[2..] == Itoa(m) && DiskId(n)[2..] == Itoa(n);
    ItoaInjective(m, n);
  }

  /** The ids of the first n disks. */
  ghost function Issued(n: nat): set<string> {
    set i | 0 <= i < n :: DiskId(i)
  }

  lemma IssuedMore(n: nat)
    ensures DiskId(n) !in Issued(n) && Issued(n + 1) == Issued(n) + {DiskId(n)}
  {
    forall i | 0 <= i < n
      ensures DiskId(i) != DiskId(n)
    {
      if DiskId(i) == DiskId(n) {
        DiskIdInjective(i, n);
      }
    }
  }

  /** The disks are exactly those created and not deleted. */
  ghost predicate Balanced(disks: set<string>, created: set<string>, deleted: set<string>, nextId: nat) {
    disks == created - deleted && deleted <= created && created == Issued(nextId)
  }

  lemma BalanceNew(disks: map<string, Disk>, created: set<string>, deleted: set<string>, nextId: nat, disk: Disk)
    requires Balanced(disks.Keys, created, deleted, nextId)
    ensures var id := DiskId(nextId);
      && id !in created && id !in disks
      && Balanced(disks[id := disk].Keys, created + {id}, deleted, nextId + 1)
  {
    IssuedMore(nextId);
  }

  /** Every disk is a volume's or an orphan, and every volume names its own disk, of its own name and size. */
  ghost predicate Booked(disks: map<string, Disk>, volumes: map<string, Volume>, orphans: set<string>) {
    && disks.Keys == volumes.Keys + orphans && volumes.Keys !! orphans
    && forall id :: id in volumes ==> volumes[id] == Volume(disks[id].name, id, disks[id].size)
  }

  lemma BookVolume(disks: map<string, Disk>, volumes: map<string, Volume>, orphans: set<string>, id: string, disk: Disk)
    requires Booked(disks, volumes, orphans) && id !in disks
    ensures Booked(disks[id := disk], volumes[id := Volume(disk.name, id, disk.size)], orphans)
  {
    assert id !in orphans && id !in volumes.Keys;
  }

  lemma BookOrphan(disks: map<string, Disk>, volumes: map<string, Volume>, orphans: set<string>, id: string, disk: Disk)
    requires Booked(disks, volumes, orphans) && id !in disks
    ensures Booked(disks[id := disk], volumes, orphans + {id})
  {
    assert id !in orphans && id !in volumes.Keys;
  }

  lemma StrikeDisk(disks: map<string, Disk>, volumes: map<string, Volume>, orphans: set<string>, id: string)
    requires Booked(disks, volumes, orphans)
    ensures Booked(disks - {id}, volumes - {id}, orphans - {id})
  {
    assert (disks - {id}).Keys == disks.Keys - {id} && (volumes - {id}).Keys == volumes.Keys - {id};
  }

  class Cloud {
    const fate: nat -> Fate
    var calls: nat
    var nextId: nat
    var disks: map<string, Disk>
    /** Every disk ever created and every disk ever deleted. */
    ghost var created: set<string>
    ghost var deleted: set<string>
    /** The volumes handed out and not deleted, by disk, and the disks no volume names. */
    ghost var volumes: map<string, Volume>
    ghost var orphans: set<string>

    ghost predicate Valid()
      reads this
    {
      Balanced(disks.Keys, created, deleted, nextId) && Booked(disks, volumes, orphans)
    }

    constructor (fate: nat -> Fate)
      ensures Valid() && this.fate == fate && calls == 0
      ensures disks == map[] && volumes == map[] && created == deleted == orphans == {}
    {
      this.fate := fate;
      calls, nextId, disks := 0, 0, map[];
      created, deleted, volumes, orphans := {}, {}, map[], {};
    }

    /** Creates a disk and enters it in the books: under a volume if the reply arrives, as an orphan if it
        is lost. */
    method CreateDisk(disk: Disk) returns (r: Option<string>)
      requires Valid()
      modifies this
      ensures Valid() && deleted == old(deleted)
      ensures calls == old(calls) + 1
      ensures var id, f := DiskId(old(nextId)), fate(old(calls));
        && id !in old(created) && id !in old(disks) && id != ""
        && r == (if f == Delivered then Some(id) else None)
        && disks == (if f == Rejected then old(disks) else old(disks)[id := disk])
        && created == (if f == Rejected then old(created) else old(created) + {id})
        && volumes == (if f == Delivered then old(volumes)[id := Volume(disk.name, id, disk.size)] else old(volumes))
        && orphans == (if f == Lost then old(orphans) + {id} else old(orphans))
    {
      var f := fate(calls);
      var id := DiskId(nextId);
      BalanceNew(disks, created, deleted, nextId, disk);
      calls := calls + 1;
      if f == Rejected {
        return None;
      }
      if f == Delivered {
        BookVolume(disks, volumes, orphans, id, disk);
        volumes := volumes[id := Volume(disk.name, id, disk.size)];
      } else {
        BookOrphan(disks, volumes, orphans, id, disk);
        orphans := orphans + {id};
      }
      disks := disks[id := disk];
      created := created + {id};
      nextId := nextId + 1;
      return if f == Delivered then Some(id) else None;
    }

    static method Check(c: Claim) returns (ok: bool)
      ensures ok == Provisionable(c)
      ensures ok <==>
        && !c.hasSelector && "ReadWriteOnce" in c.accessModes
        && c.parameters.Some? && "diskCategory" in c.parameters.value && c.parameters.value["diskCategory"] != ""
    {
      CategoryFromParameters(c);
      if c.hasSelector {
        return false;
      }
      var found := false;
      for i := 0 to |c.accessModes|
        invariant found <==> "ReadWriteOnce" in c.accessModes[..i]
      {
        if c.accessModes[i] == "ReadWriteOnce" {
          found := true;
        }
      }
      assert c.accessModes[..|c.accessModes|] == c.accessModes;
      return found && Category(c) != "";
    }

    /** Creates a disk for a claim. A returned volume names a disk never seen before, just created, at the
        right size unless scaling the request overflows; a failure leaves no disk behind, unless the reply
        to the create call was lost, which leaves a disk no volume names. */
    method Provision(c: Claim) returns (r: Option<Volume>)
      requires Valid()
      modifies this
      ensures Valid() && deleted == old(deleted)
      ensures r.Some? <==> Provisionable(c) && fate(old(calls)) == Delivered
      ensures calls == old(calls) + if Provisionable(c) then 1 else 0
      ensures r.Some? ==> var v := r.value;
        && v.name == c.volumeName && v.diskId !in old(created) && v.diskId != ""
        && disks == old(disks)[v.diskId := Disk(c.volumeName, Category(c), v.capacity)]
        && volumes == old(volumes)[v.diskId := v] && orphans == old(orphans)
      ensures r.Some? ==> r.value.capacity == SizeOf(c.request, Category(c))
      ensures r.Some? ==> (RightSize(r.value.capacity, c.request, Category(c)) <==> Scalable(c.request, Category(c)))
      ensures r.None? ==> volumes == old(volumes)
      ensures r.None? ==> (disks == old(disks) <==> !(Provisionable(c) && fate(old(calls)) == Lost))
      ensures disks == old(disks) ==> created == old(created) && orphans == old(orphans)
      ensures Provisionable(c) && fate(old(calls)) == Lost ==> |orphans| == |old(orphans)| + 1
    {
      var ok := Check(c);
      if !ok {
        return None;
      }
      var category := Category(c);
      var size := DiskSize(c.request, category);
      ghost var key := DiskId(nextId);
      var id := CreateDisk(Disk(c.volumeName, category, size));
      assert fate(old(calls)) != Rejected ==> key in disks && key !in old(disks);
      return if id.None? then None else Some(Volume(c.volumeName, id.value, size));
    }

    /** Deletes the disk a volume names; a volume without one is refused. */
    method Delete(diskId: Option<string>) returns (ok: bool)
      requires Valid()
      modifies this
      ensures Valid() && created == old(created)
      ensures calls == old(calls) + if diskId.Some? && diskId.value != "" then 1 else 0
      ensures
        var applied := diskId.Some? && diskId.value != "" && diskId.value in old(disks) && fate(old(calls)) != Rejected;
        && ok == (applied && fate(old(calls)) == Delivered)
        && disks == (if applied then old(disks) - {diskId.value} else old(disks))
        && deleted == (if applied then old(deleted) + {diskId.value} else old(deleted))
        && volumes == (if applied then old(volumes) - {diskId.value} else old(volumes))
        && orphans == (if applied then old(orphans) - {diskId.value} else old(orphans))
    {
      if diskId.None? || diskId.value == "" {
        return false;
      }
      var f := fate(calls);
      calls := calls + 1;
      if f == Rejected || diskId.value !in disks {
        return false;
      }
      StrikeDisk(disks, volumes, orphans, diskId.value);
      disks := disks - {diskId.value};
      deleted := deleted + {diskId.value};
      volumes := volumes - {diskId.value};
      orphans := orphans - {diskId.value};
      return f == Delivered;
    }
  }

  /** A provisionable claim whose create reply is lost fails, and leaves a disk that no volume names and
      that deleting every volume handed out would not remove. */
  method LostReplyOrphans(c: Claim) returns (cloud: Cloud, r: Option<Volume>)
    requires Provisionable(c)
    ensures fresh(cloud) && cloud.Valid() && r == None
    ensures cloud.volumes == map[] && |cloud.disks| == 1 && cloud.orphans == cloud.disks.Keys
  {
    cloud := new Cloud(_ => Lost);
    r := cloud.Provision(c);
  }
}
