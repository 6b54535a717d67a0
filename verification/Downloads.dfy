/** Download accounting: what a download costs, when it is allowed, what is booked, and
    what a whole batch can do to the user's credits, daily limits and ratio. */
module Downloads {
  import opened Bytes
  import opened Wrappers

  /** A file, with what decides who sees it. */
  datatype FileRec = FileRec(size: nat, free: bool, notValidated: bool, offline: bool)

  /** An area; `open` is whether its access conditions and its password let the user in. */
  datatype Area = Area(freeFiles: bool, open: bool)

  /** Limits of the user's security level, 0 for none. */
  datatype Level = Level(filesPerDay: int, kbPerDay: int)

  datatype User = User(
    credits: int, userCredits: int, downloads: nat, uploads: nat, dk: nat, dlToday: nat, dlKToday: nat,
    ratioDen: int, sysop: bool, noCredits: bool, noRatio: bool)

  /** An entry of the batch queue with what is found for it: `resolves` is whether its
      path is good, `sent` whether the transfer succeeds. */
  datatype Item = Item(file: Option<FileRec>, area: Option<Area>, resolves: bool, sent: bool)

  function KbUp(size: nat): nat {
    (size + 1023) / 1024
  }

  predicate IsFree(a: Area, f: FileRec) {
    f.free || a.freeFiles
  }

  function CostOf(a: Area, f: FileRec): nat {
    if IsFree(a, f) then 0 else if KbUp(f.size) > 0 then KbUp(f.size) else 1
  }

  /** What a download takes off the credits. */
  function Charge(u: User, a: Area, f: FileRec): nat {
    if u.noCredits then 0 else CostOf(a, f)
  }

  predicate DailyOk(u: User, level: Option<Level>, f: FileRec) {
    level.Some? ==>
      (level.value.filesPerDay > 0 ==> u.dlToday < level.value.filesPerDay) &&
      (level.value.kbPerDay > 0 ==> u.dlKToday + KbUp(f.size) <= level.value.kbPerDay)
  }

  predicate RatioOn(u: User) {
    !u.noRatio && u.ratioDen > 0
  }

  predicate Allowed(u: User, level: Option<Level>, a: Area, f: FileRec) {
    !(f.notValidated && !u.sysop) && !f.offline && a.open && DailyOk(u, level, f) &&
    (Charge(u, a, f) > 0 ==> u.credits >= Charge(u, a, f)) &&
    (RatioOn(u) ==> u.uploads >= u.downloads / u.ratioDen)
  }

  function Booked(u: User, a: Area, f: FileRec): User {
    u.(credits := u.credits - Charge(u, a, f), userCredits := u.userCredits - Charge(u, a, f),
       downloads := u.downloads + 1, dk := u.dk + f.size / 1024,
       dlToday := u.dlToday + 1, dlKToday := u.dlKToday + f.size / 1024)
  }

  /** The download of this entry takes place. */
  predicate Happens(u: User, level: Option<Level>, it: Item) {
    it.file.Some? && it.area.Some? && Allowed(u, level, it.area.value, it.file.value) && it.resolves && it.sent
  }

  function After(u: User, level: Option<Level>, it: Item): User {
    if Happens(u, level, it) then Booked(u, it.area.value, it.file.value) else u
  }

  function Batch(u: User, level: Option<Level>, items: seq<Item>): User {
    if items == [] then u else After(Batch(u, level, items[..|items| - 1]), level, items[|items| - 1])
  }

  /* ---------- the session ---------- */

  class Session {
    var credits: int
    var userCredits: int
    var downloads: nat
    var uploads: nat
    var dk: nat
    var dlToday: nat
    var dlKToday: nat
    var ratioDen: int
    var sysop: bool
    var noCredits: bool
    var noRatio: bool

    ghost function Value(): User
      reads this
    {
      User(credits, userCredits, downloads, uploads, dk, dlToday, dlKToday, ratioDen, sysop, noCredits, noRatio)
    }

    /** file_download_allowed */
    method DownloadAllowed(level: Option<Level>, a: Area, f: FileRec) returns (ok: bool, cost: nat)
      ensures ok == Allowed(Value(), level, a, f) && cost == CostOf(a, f)
    {
      var kb := (f.size + 1023) / 1024;
      var price := if kb > 0 then kb else 1;
      var free := f.free || a.freeFiles;
      cost := if free then 0 else price;
      ok := false;
      if f.notValidated && !sysop {
        return;
      }
      if f.offline {
        return;
      }
      if !a.open {
        return;
      }
      if level.Some? {
        if level.value.filesPerDay > 0 && dlToday >= level.value.filesPerDay {
          return;
        }
        if level.value.kbPerDay > 0 && dlKToday + kb > level.value.kbPerDay {
          return;
        }
      }
      if !free && !noCredits && credits < price {
        return;
      }
      if !noRatio && ratioDen > 0 {
        var required := downloads / ratioDen;
        if uploads < required {
          return;
        }
      }
      ok := true;
    }

    /** file_record_download_success */
    method RecordDownloadSuccess(a: Area, f: FileRec, cost: nat)
      requires cost == CostOf(a, f)
      modifies this
      ensures Value() == Booked(old(Value()), a, f)
    {
      var free := f.free || a.freeFiles;
      if !free && !noCredits {
        credits := credits - cost;
        userCredits := userCredits - cost;
      }
      downloads := downloads + 1;
      dk := dk + f.size / 1024;
      dlToday := dlToday + 1;
      dlKToday := dlKToday + f.size / 1024;
    }

    method BatchItem(level: Option<Level>, it: Item) returns (sent: bool)
      modifies this
      ensures Value() == After(old(Value()), level, it) && sent == Happens(old(Value()), level, it)
    {
      hide Allowed, Booked, CostOf;
      sent := false;
      if it.file.None? {
        return;
      }
      if it.area.None? {
        return;
      }
      var ok, cost := DownloadAllowed(level, it.area.value, it.file.value);
      if !ok {
        return;
      }
      if !it.resolves {
        return;
      }
      if it.sent {
        sent := true;
        RecordDownloadSuccess(it.area.value, it.file.value, cost);
      }
    }

    /** The loop of cmd_file_batch_download. */
    method BatchDownload(level: Option<Level>, items: seq<Item>) returns (successes: nat)
      modifies this
      ensures Value() == Batch(old(Value()), level, items)
      ensures successes == downloads - old(downloads)
    {
      hide After, Happens;
      successes := 0;
      for i := 0 to |items|
        invariant Value() == Batch(old(Value()), level, items[..i])
        invariant successes == downloads - old(downloads)
      {
        OneDownload(Value(), level, items[i]);
        var sent := BatchItem(level, items[i]);
        assert items[..i + 1][..i] == items[..i];
        if sent {
          successes := successes + 1;
        }
      }
      assert items[..|items|] == items;
    }
  }

  lemma OneDownload(u: User, level: Option<Level>, it: Item)
    ensures After(u, level, it).downloads == u.downloads + if Happens(u, level, it) then 1 else 0
  {
  }

  /* ---------- whole batches ---------- */

  /** The downloads of a batch that take place, with the user's state before each. */
  function Charges(u: User, level: Option<Level>, items: seq<Item>): nat {
    if items == [] then 0
    else
      var front, it := items[..|items| - 1], items[|items| - 1];
      var v := Batch(u, level, front);
      Charges(u, level, front) + if Happens(v, level, it) then Charge(v, it.area.value, it.file.value) else 0
  }

  /** The bytes that a batch sends. */
  function BytesSent(u: User, level: Option<Level>, items: seq<Item>): nat {
    if items == [] then 0
    else
      var front, it := items[..|items| - 1], items[|items| - 1];
      BytesSent(u, level, front) + if Happens(Batch(u, level, front), level, it) then it.file.value.size else 0
  }

  function Max(a: int, b: int): int {
    if a < b then b else a
  }

  /** The most that a limit allows, if it is on. */
  predicate Capped(limit: int, before: int, after: int) {
    limit > 0 ==> after <= Max(before, limit)
  }

  /** What one entry keeps: credits are not drawn below zero, no limit that is on is
      passed, and the ratio is kept. */
  predicate Kept(u: User, v: User, level: Option<Level>) {
    v.credits >= Min(u.credits, 0) &&
    (level.Some? ==> Capped(level.value.filesPerDay, u.dlToday, v.dlToday) &&
                     Capped(level.value.kbPerDay, u.dlKToday, v.dlKToday)) &&
    (RatioOn(u) ==> v.downloads <= Max(u.downloads, (u.uploads + 1) * u.ratioDen)) &&
    v.uploads == u.uploads && v.ratioDen == u.ratioDen && v.noRatio == u.noRatio && v.noCredits == u.noCredits
  }

  /** The ratio check lets a download through exactly while the downloads are fewer
      than the denominator times one more than the uploads. */
  lemma RatioMeans(uploads: nat, downloads: nat, den: nat)
    requires den > 0
    ensures uploads >= downloads / den <==> downloads < (uploads + 1) * den
  {
    var q, r := downloads / den, downloads % den;
    assert downloads == q * den + r;
    if uploads >= q {
      Times(q, uploads, den);
    } else {
      Times(uploads + 1, q, den);
    }
  }

  lemma Times(a: nat, b: nat, c: nat)
    requires a <= b
    ensures a * c <= b * c
  {
  }

  lemma StepKeeps(u: User, level: Option<Level>, it: Item)
    ensures Kept(u, After(u, level, it), level)
  {
    if Happens(u, level, it) && RatioOn(u) {
      RatioMeans(u.uploads, u.downloads, u.ratioDen);
    }
  }

  lemma KeptTrans(u: User, v: User, w: User, level: Option<Level>)
    requires Kept(u, v, level) && Kept(v, w, level)
    ensures Kept(u, w, level)
  {
  }

  /** Whatever the batch: credits never go below zero, the daily totals never pass
      limits that are on, and the ratio is kept. */
  lemma {:induction false} BatchKeeps(u: User, level: Option<Level>, items: seq<Item>)
    ensures Kept(u, Batch(u, level, items), level)
  {
    hide After, Kept;
    if items == [] {
      KeptSame(u, level);
    } else {
      var v := Batch(u, level, items[..|items| - 1]);
      BatchKeeps(u, level, items[..|items| - 1]);
      StepKeeps(v, level, items[|items| - 1]);
      KeptTrans(u, v, After(v, level, items[|items| - 1]), level);
    }
  }

  lemma KeptSame(u: User, level: Option<Level>)
    ensures Kept(u, u, level)
  {
  }

  /** Both balances fall by exactly the sum of the charges. */
  lemma {:induction false} CreditsConserved(u: User, level: Option<Level>, items: seq<Item>)
    ensures var v := Batch(u, level, items);
            v.credits == u.credits - Charges(u, level, items) &&
            v.userCredits == u.userCredits - Charges(u, level, items)
  {
    hide Allowed;
    if items != [] {
      CreditsConserved(u, level, items[..|items| - 1]);
    }
  }

  /** The bytes of the downloads of a batch that no kilobyte is booked for. */
  function Lost(u: User, level: Option<Level>, items: seq<Item>): nat {
    if items == [] then 0
    else
      var front, it := items[..|items| - 1], items[|items| - 1];
      Lost(u, level, front) + if Happens(Batch(u, level, front), level, it) then it.file.value.size % 1024 else 0
  }

  /** What a batch books, in kilobytes. */
  function KbBooked(u: User, level: Option<Level>, items: seq<Item>): int {
    Batch(u, level, items).dlKToday - u.dlKToday
  }

  /** The bytes that are sent are those of the kilobytes booked and the ones lost in
      rounding, less than a kilobyte a file. */
  lemma {:induction false} BytesBooked(u: User, level: Option<Level>, items: seq<Item>)
    ensures BytesSent(u, level, items) == 1024 * KbBooked(u, level, items) + Lost(u, level, items)
    ensures Lost(u, level, items) <= 1023 * (Batch(u, level, items).downloads - u.downloads)
    ensures KbBooked(u, level, items) >= 0
    ensures Batch(u, level, items).dlToday - u.dlToday == Batch(u, level, items).downloads - u.downloads
  {
    hide Allowed, Charge;
    if items != [] {
      BytesBooked(u, level, items[..|items| - 1]);
    }
  }

  /** The `k`-th entry is not sent or is a whole number of kilobytes. */
  predicate WholeAt(u: User, level: Option<Level>, items: seq<Item>, k: nat)
    requires k < |items|
  {
    Happens(Batch(u, level, items[..k]), level, items[k]) ==> items[k].file.value.size % 1024 == 0
  }

  /** Every file that is sent is a whole number of kilobytes. */
  predicate AllWhole(u: User, level: Option<Level>, items: seq<Item>) {
    forall k :: 0 <= k < |items| ==> WholeAt(u, level, items, k)
  }

  lemma AllWholeSnoc(u: User, level: Option<Level>, items: seq<Item>)
    requires items != []
    ensures var n := |items| - 1;
            AllWhole(u, level, items) <==> AllWhole(u, level, items[..n]) && WholeAt(u, level, items, n)
  {
    hide Happens, Batch;
    var front := items[..|items| - 1];
    forall k | 0 <= k < |front| ensures WholeAt(u, level, items, k) == WholeAt(u, level, front, k) {
      assert front[..k] == items[..k];
    }
  }

  lemma {:induction false} NothingLostIff(u: User, level: Option<Level>, items: seq<Item>)
    ensures Lost(u, level, items) == 0 <==> AllWhole(u, level, items)
  {
    hide Batch, AllWhole;
    if items == [] {
      NoneLost(u, level);
    } else {
      NothingLostIff(u, level, items[..|items| - 1]);
      AllWholeSnoc(u, level, items);
    }
  }

  lemma NoneLost(u: User, level: Option<Level>)
    ensures AllWhole(u, level, [])
  {
  }

  /** The kilobytes booked are exactly the bytes sent if and only if every file sent is
      a whole number of kilobytes. */
  lemma BookedExactlyIff(u: User, level: Option<Level>, items: seq<Item>)
    ensures BytesSent(u, level, items) == 1024 * KbBooked(u, level, items) <==> AllWhole(u, level, items)
  {
    hide KbBooked, AllWhole;
    BytesBooked(u, level, items);
    NothingLostIff(u, level, items);
  }

  /** A limit bounds the bytes that are sent in a day that begins with nothing booked if
      and only if what is booked and what is lost stay within it together; of whole
      kilobytes it always does. */
  lemma LimitBoundsIff(u: User, level: Level, items: seq<Item>)
    requires u.dlKToday == 0 && level.kbPerDay > 0
    ensures var l := Some(level);
            BytesSent(u, l, items) <= 1024 * level.kbPerDay <==>
            Lost(u, l, items) <= 1024 * (level.kbPerDay - KbBooked(u, l, items))
    ensures AllWhole(u, Some(level), items) ==> BytesSent(u, Some(level), items) <= 1024 * level.kbPerDay
  {
    hide AllWhole, Lost, BytesSent, Batch;
    BytesBooked(u, Some(level), items);
    NothingLostIff(u, Some(level), items);
    BatchKeeps(u, Some(level), items);
  }

  /* ---------- for which files the kilobyte limit is a limit ---------- */

  /** On a day that began with nothing booked the limit bounds what a batch sends. */
  predicate Bounded(u: User, level: Level, items: seq<Item>) {
    u.dlKToday == 0 && level.kbPerDay > 0 ==> BytesSent(u, Some(level), items) <= 1024 * level.kbPerDay
  }

  /** Every file of the batch has one of these sizes. */
  predicate SizesIn(items: seq<Item>, sizes: set<nat>) {
    forall k :: 0 <= k < |items| ==> items[k].file.Some? ==> items[k].file.value.size in sizes
  }

  function Repeat(it: Item, n: nat): (r: seq<Item>)
    ensures |r| == n
  {
    if n == 0 then [] else Repeat(it, n - 1) + [it]
  }

  lemma {:induction false} RepeatSizes(it: Item, n: nat, sizes: set<nat>)
    requires it.file.Some? && it.file.value.size in sizes
    ensures SizesIn(Repeat(it, n), sizes)
  {
    if n > 0 {
      RepeatSizes(it, n - 1, sizes);
    }
  }

  /** A free file that anyone may have, and a user without a ratio. */
  function FreeFile(size: nat): Item {
    Item(Some(FileRec(size, true, false, false)), Some(Area(true, true)), true, true)
  }

  const NEWCOMER := User(0, 0, 0, 0, 0, 0, 0, 0, false, false, true)

  /** As long as the last copy is within the limit all copies of a file are sent. */
  lemma {:induction false} CopiesAreSent(size: nat, level: Level, n: nat)
    requires level.filesPerDay == 0 && n * (size / 1024) + KbUp(size) <= level.kbPerDay
    ensures var v, items := Batch(NEWCOMER, Some(level), Repeat(FreeFile(size), n)), Repeat(FreeFile(size), n);
            v.dlKToday == n * (size / 1024) && v.noRatio && BytesSent(NEWCOMER, Some(level), items) == n * size
  {
    if n > 0 {
      CopiesMultiply(n, size / 1024);
      CopiesMultiply(n, size);
      CopiesAreSent(size, level, n - 1);
      assert Repeat(FreeFile(size), n)[..n - 1] == Repeat(FreeFile(size), n - 1);
    }
  }

  lemma CopiesMultiply(n: nat, k: nat)
    requires n > 0
    ensures n * k == (n - 1) * k + k
  {
  }

  /** More than 1024 copies of a file with a part of a kilobyte pass the limit of what is
      booked for them and one kilobyte more. */
  lemma CopiesPassTheLimit(size: nat, n: nat)
    requires size % 1024 != 0 && n > 1024
    ensures !Bounded(NEWCOMER, Level(0, n * (size / 1024) + 1), Repeat(FreeFile(size), n))
  {
    hide BytesSent, Repeat, FreeFile;
    var level := Level(0, n * (size / 1024) + 1);
    LastCopyIsSent(size, n);
    CopiesBytes(size, n);
  }

  lemma CopiesBytes(size: nat, n: nat)
    requires size % 1024 != 0 && n > 1024
    ensures n * size > 1024 * (n * (size / 1024) + 1)
  {
    var b, r := size / 1024, size % 1024;
    assert size == 1024 * b + r;
    assert n * (1024 * b + r) == 1024 * (n * b) + n * r;
    assert n * r >= n;
  }

  lemma LastCopyIsSent(size: nat, n: nat)
    requires size % 1024 != 0 && n > 0
    ensures BytesSent(NEWCOMER, Some(Level(0, n * (size / 1024) + 1)), Repeat(FreeFile(size), n)) == n * size
  {
    var level := Level(0, n * (size / 1024) + 1);
    CopiesMultiply(n, size / 1024);
    CopiesMultiply(n, size);
    CopiesAreSent(size, level, n - 1);
    assert Repeat(FreeFile(size), n)[..n - 1] == Repeat(FreeFile(size), n - 1);
  }

  /** The kilobyte limit bounds what is sent, whatever the limit, the user and the batch,
      if and only if the sizes of the files are whole numbers of kilobytes. */
  lemma LimitBoundsAlwaysIff(sizes: set<nat>)
    ensures (forall u: User, level: Level, items: seq<Item> :: SizesIn(items, sizes) ==> Bounded(u, level, items)) <==>
            forall size :: size in sizes ==> size % 1024 == 0
  {
    hide BytesSent, Repeat, Batch, Bounded, SizesIn;
    if forall size :: size in sizes ==> size % 1024 == 0 {
      forall u: User, level: Level, items: seq<Item> | SizesIn(items, sizes) ensures Bounded(u, level, items) {
        WholeSizesBound(u, level, items, sizes);
      }
    } else {
      var size :| size in sizes && size % 1024 != 0;
      var n: nat :| n > 1024;
      RepeatSizes(FreeFile(size), n, sizes);
      CopiesPassTheLimit(size, n);
    }
  }

  lemma WholeSizesBound(u: User, level: Level, items: seq<Item>, sizes: set<nat>)
    requires SizesIn(items, sizes) && forall size :: size in sizes ==> size % 1024 == 0
    ensures Bounded(u, level, items)
  {
    hide BytesSent, Batch;
    forall k | 0 <= k < |items| ensures WholeAt(u, Some(level), items, k) {
    }
    if u.dlKToday == 0 && level.kbPerDay > 0 {
      LimitBoundsIff(u, level, items);
    }
  }

  /** So that the limit bounds what is booked and not what is sent: two files of 1023
      bytes pass a limit of one kilobyte a day. */
  lemma SmallFilesPassTheLimit(u: User)
    requires u.credits >= 2 && u.dlKToday == 0 && !RatioOn(u)
    ensures var it := Item(Some(FileRec(1023, false, false, false)), Some(Area(false, true)), true, true);
            var level := Some(Level(0, 1));
            BytesSent(u, level, [it, it]) == 2046 && Batch(u, level, [it, it]).dlKToday == 0
  {
    var it := Item(Some(FileRec(1023, false, false, false)), Some(Area(false, true)), true, true);
    var level := Some(Level(0, 1));
    assert [it, it][..1] == [it] && [it][..0] == [];
    assert Batch(u, level, []) == u;
    assert Happens(u, level, it);
    assert Batch(u, level, [it]) == Booked(u, it.area.value, it.file.value);
    assert BytesSent(u, level, []) == 0;
    assert BytesSent(u, level, [it]) == 1023;
    assert Happens(Booked(u, it.area.value, it.file.value), level, it);
  }

  /* ---------- what is allowed and what it costs, in bytes ---------- */

  /** The download of an entry takes place if and only if its file and area are known, the
      file is validated or the user a sysop, it is not offline, the area is open, its path
      is good and it is sent, one more file and all its bytes fit the limits that are on,
      the credits pay for every kilobyte of it, begun or whole and at least one, unless it
      is free or the user pays nothing, and the ratio, if it is on, allows one more. */
  lemma HappensIff(u: User, level: Option<Level>, it: Item)
    ensures Happens(u, level, it) <==>
            it.file.Some? && it.area.Some? && it.resolves && it.sent &&
            var f, a := it.file.value, it.area.value;
            (!f.notValidated || u.sysop) && !f.offline && a.open &&
            (level.Some? && level.value.filesPerDay > 0 ==> u.dlToday + 1 <= level.value.filesPerDay) &&
            (level.Some? && level.value.kbPerDay > 0 ==> 1024 * u.dlKToday + f.size <= 1024 * level.value.kbPerDay) &&
            (f.free || a.freeFiles || u.noCredits || (u.credits >= 1 && 1024 * u.credits >= f.size)) &&
            (u.noRatio || u.ratioDen <= 0 || u.downloads < (u.uploads + 1) * u.ratioDen)
  {
    if it.file.Some? && RatioOn(u) {
      RatioMeans(u.uploads, u.downloads, u.ratioDen);
    }
  }

  /** A free file, or one for a user who pays nothing, costs nothing.  Any other costs the
      least number of credits, and at least one, with a kilobyte for each. */
  lemma ChargeIs(u: User, a: Area, f: FileRec)
    ensures var c := Charge(u, a, f);
            if f.free || a.freeFiles || u.noCredits then c == 0
            else c >= 1 && 1024 * c >= f.size && (c == 1 || 1024 * (c - 1) < f.size)
  {
  }

  /** The downloads of a batch that take place. */
  function Count(u: User, level: Option<Level>, items: seq<Item>): nat {
    if items == [] then 0
    else
      var front := items[..|items| - 1];
      Count(u, level, front) + if Happens(Batch(u, level, front), level, items[|front|]) then 1 else 0
  }

  /** Each download that takes place is counted once, for good and for the day, its whole
      kilobytes are booked for good and for the day, and nothing else changes but the
      credits. */
  lemma {:induction false} BatchCounts(u: User, level: Option<Level>, items: seq<Item>)
    ensures var v, n := Batch(u, level, items), Count(u, level, items);
            v == u.(credits := v.credits, userCredits := v.userCredits, downloads := v.downloads, dk := v.dk,
                    dlToday := v.dlToday, dlKToday := v.dlKToday) &&
            v.downloads == u.downloads + n && v.dlToday == u.dlToday + n && v.dk - u.dk == v.dlKToday - u.dlKToday
  {
    hide Happens, Charge;
    if items != [] {
      BatchCounts(u, level, items[..|items| - 1]);
    }
  }
}
