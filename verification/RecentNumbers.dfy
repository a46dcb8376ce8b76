/** The numbers a phone remembers: a list without duplicates, kept over restarts in
    numbered keys of the configuration file. */
module RecentNumbers {
  import opened ConfigText
  import opened NumberFile
  import opened Options
  import opened Sequences
  import opened UtlStrings

  /** One process, its database, and the text of the file it shares with those
      before and after it. */
  datatype Phone = Phone(list: seq<string>, db: seq<Entry>, file: string)

  const FIRST_START := Phone([], [], "")

  datatype Op =
    | Dialled(number: string)  // or called by it
    | Load(ok: bool)
    | Save(settings: seq<Entry>, ok: bool)  // the other settings are saved along
    | Restart

  /** The oldest numbers go first. */
  function Newest(list: seq<string>): seq<string> {
    if |list| > SIZE then list[|list| - SIZE..] else list
  }

  /** What a save puts into the database: the other settings, then the numbers. */
  function ToSave(p: Phone, settings: seq<Entry>): seq<Entry> {
    SetAll(SetAll(p.db, settings), Entries(Newest(p.list)))
  }

  function Step(p: Phone, op: Op): Phone {
    match op
    case Dialled(number) => p.(list := Remember(p.list, number))
    case Load(ok) =>
      if !ok then p else
      var db := LoadText(p.db, p.file);
      Phone(ReadBack(db, p.list, 0), db, p.file)
    case Save(settings, ok) =>
      var db := ToSave(p, settings);
      if ok then Phone(Newest(p.list), Stripped(db), StoreText(db)) else Phone(Newest(p.list), db, p.file)
    case Restart => Phone([], [], p.file)
  }

  function Run(p: Phone, ops: seq<Op>): Phone
    decreases ops
  {
    if ops == [] then p else Run(Step(p, ops[0]), ops[1..])
  }

  // ----- Runs ----------------------------------------------------------------

  predicate IsStored(op: Op) {
    op.Save? && op.ok
  }

  /** At every save that reaches the file, the saved list can be read back. */
  predicate EverySaveRestored(p: Phone, ops: seq<Op>)
    decreases ops
  {
    ops != [] ==>
      var next := Step(p, ops[0]);
      (IsStored(ops[0]) ==> Restored(next.file) == next.list) && EverySaveRestored(next, ops[1..])
  }

  /** At every save that reaches the file, the file keeps the saved numbers. */
  ghost predicate EverySaveGood(p: Phone, ops: seq<Op>)
    decreases ops
  {
    ops != [] ==>
      var next := Step(p, ops[0]);
      (IsStored(ops[0]) ==> AllGood(next.list)) && EverySaveGood(next, ops[1..])
  }

  ghost predicate AllSettings(settings: seq<Entry>) {
    forall e | e in settings :: IsSetting(e)
  }

  /** The other settings that are saved stay out of the numbered keys. */
  ghost predicate SettingsOnly(ops: seq<Op>) {
    forall op | op in ops :: op.Save? ==> AllSettings(op.settings)
  }

  ghost predicate FileHolds(file: string, f: seq<string>) {
    exists g :: file == StoreText(g) && Tame(g) && Numbers(g, f)
  }

  /** The database holds the numbers `d`, no more than the list, so that the next
      save overwrites them all; the file holds the numbers `f`. */
  ghost predicate Sound(p: Phone, d: seq<string>, f: seq<string>) {
    && NoneTwice(p.list)
    && Tame(p.db) && Numbers(p.db, d) && |d| <= SIZE && |d| <= |p.list|
    && FileHolds(p.file, f) && |f| <= SIZE && NoneTwice(f) && AllGood(f)
  }

  lemma NewestIsNoneTwice(list: seq<string>)
    requires NoneTwice(list)
    ensures NoneTwice(Newest(list)) && |Newest(list)| == if |list| <= SIZE then |list| else SIZE
  {
  }

  lemma LoadIsSound(p: Phone, d: seq<string>, f: seq<string>)
    requires Sound(p, d, f)
    ensures Sound(Step(p, Load(true)), Overlay(d, f), f)
    ensures Step(p, Load(true)).list == ReadNumbers(p.list, Overlay(d, f))
  {
    var o, db := Overlay(d, f), LoadText(p.db, p.file);
    LoadsNumbers(p, d, f);
    hide Tame, Numbers, StoreText, LoadText, ReadBack, NoneTwice, AllGood, FileHolds;
    ReadsNumbers(db, o, p.list, 0);
    assert o[0..] == o;
    ListCovers(p.list, d, f);
    hide ReadNumbers;
  }

  lemma LoadsNumbers(p: Phone, d: seq<string>, f: seq<string>)
    requires Tame(p.db) && Numbers(p.db, d) && FileHolds(p.file, f) && |f| <= SIZE && AllGood(f)
    ensures Tame(LoadText(p.db, p.file)) && Numbers(LoadText(p.db, p.file), Overlay(d, f))
  {
    var g :| p.file == StoreText(g) && Tame(g) && Numbers(g, f);
    hide *;
    LoadsGood(p.db, d, g, f);
  }

  /** After loading, the list is no shorter than what the database holds. */
  lemma ListCovers(list: seq<string>, d: seq<string>, f: seq<string>)
    requires NoneTwice(list) && |d| <= |list| && NoneTwice(f) && AllGood(f)
    ensures var r := ReadNumbers(list, Overlay(d, f));
            NoneTwice(r) && |Overlay(d, f)| <= |r|
  {
    assert "" !in f;
    assert if |d| < |f| then Overlay(d, f) == f else |Overlay(d, f)| == |d|;
    hide *;
    ReadingGrows(list, Overlay(d, f));
    if |d| < |f| {
      DistinctFit(f, ReadNumbers(list, f));
    }
  }

  /** The list is written over all numbers that the database held. */
  lemma SaveWrites(p: Phone, d: seq<string>, f: seq<string>, settings: seq<Entry>)
    requires Sound(p, d, f) && AllSettings(settings)
    ensures Tame(ToSave(p, settings)) && Numbers(ToSave(p, settings), Newest(p.list))
    ensures |Newest(p.list)| <= SIZE && NoneTwice(Newest(p.list))
  {
    hide Tame, Numbers, FileHolds, AllGood;
    NewestIsNoneTwice(p.list);
    hide NoneTwice, Newest;
    SettingsSpareNumbers(p.db, d, settings);
    SetsNumbers(SetAll(p.db, settings), d, Newest(p.list));
    NumbersAreTame(SetAll(p.db, settings), Newest(p.list));
  }

  lemma StrippedEntry(e: Entry)
    requires IsName(e.key)
    ensures var s := StrippedOf(e);
            s.key == e.key && StoredLine(s) == StoredLine(e) && (Plain(e.value) ==> s == e)
  {
    assert IsSpace('\r');
    hide CString, Without;
  }

  lemma StrippedIsTame(db: seq<Entry>)
    requires Tame(db)
    ensures Tame(Stripped(db)) && |Stripped(db)| == |db|
    ensures forall i | 0 <= i < |db| ::
              Stripped(db)[i].key == db[i].key && (Plain(db[i].value) ==> Stripped(db)[i] == db[i])
  {
    hide Without, StoredLine, Pieces, IsName, Plain, IsNumberKey;
    forall i | 0 <= i < |db|
      ensures var s := Stripped(db)[i];
              s.key == db[i].key && StoredLine(s) == StoredLine(db[i]) && (Plain(db[i].value) ==> s == db[i])
    {
      assert db[i] in db;
      StrippedEntry(db[i]);
    }
    hide Stripped;
    forall e | e in Stripped(db) ensures IsName(e.key) && (IsNumberKey(e.key) || IsSetting(e)) {
      var i :| 0 <= i < |db| && Stripped(db)[i] == e;
      assert db[i] in db;
    }
  }

  lemma {:induction false} SameKeys(a: seq<Entry>, b: seq<Entry>, key: string)
    requires |a| == |b| && forall i | 0 <= i < |a| :: a[i].key == b[i].key
    ensures IndexOf(a, key) == IndexOf(b, key)
    decreases |a|
  {
    if a != [] {
      SameKeys(a[1..], b[1..], key);
    }
  }

  lemma StrippedNumbers(db: seq<Entry>, list: seq<string>)
    requires Tame(db) && Numbers(db, list) && AllGood(list)
    ensures Numbers(Stripped(db), list)
  {
    StrippedIsTame(db);
    hide Tame, Key, IndexOf, Stripped, Plain, Tidy;
    forall i: nat ensures Seen(Stripped(db), Key(i)) == Seen(db, Key(i)) {
      SameKeys(db, Stripped(db), Key(i));
      NumberAt(db, list, i);
      assert i < |list| ==> Good(list[i]);
    }
  }

  lemma SaveIsSound(p: Phone, d: seq<string>, f: seq<string>, settings: seq<Entry>, ok: bool)
    requires Sound(p, d, f) && AllSettings(settings) && (ok ==> AllGood(Newest(p.list)))
    ensures var list := Newest(p.list);
            Sound(Step(p, Save(settings, ok)), list, if ok then list else f)
  {
    SaveWrites(p, d, f, settings);
    var db, list := ToSave(p, settings), Newest(p.list);
    hide NoneTwice, AllGood, Newest, ToSave, Tame, Numbers, Stripped, StoreText;
    if ok {
      StrippedIsTame(db);
      StrippedNumbers(db, list);
      assert FileHolds(StoreText(db), list);
    }
    hide FileHolds;
  }

  /** Whether a save can be read back depends on the saved list alone. */
  lemma SaveIsRestored(p: Phone, d: seq<string>, f: seq<string>, settings: seq<Entry>)
    requires Sound(p, d, f) && AllSettings(settings)
    ensures var after := Step(p, Save(settings, true));
            Restored(after.file) == after.list <==> AllGood(after.list)
  {
    SaveWrites(p, d, f, settings);
    hide NoneTwice, AllGood, Newest, ToSave, Tame, Numbers, Stripped, StoreText, Restored, Sound;
    RestoredExactly(ToSave(p, settings), Newest(p.list));
  }

  lemma RestartIsSound(p: Phone, d: seq<string>, f: seq<string>)
    requires Sound(p, d, f)
    ensures Sound(Step(p, Restart), [], f)
  {
    NothingIsTame();
    hide Tame, Numbers, FileHolds, AllGood;
  }

  lemma StepIsSound(p: Phone, d: seq<string>, f: seq<string>, op: Op) returns (d': seq<string>, f': seq<string>)
    requires Sound(p, d, f) && (op.Save? ==> AllSettings(op.settings))
    requires IsStored(op) ==> AllGood(Newest(p.list))
    ensures Sound(Step(p, op), d', f')
  {
    d', f' := d, f;
    match op
    case Dialled(number) =>
      RememberIsNoneTwice(p.list, number);
      hide NoneTwice, AllGood, Remember, Tame, Numbers, FileHolds;
    case Load(ok) =>
      if ok {
        LoadIsSound(p, d, f);
        d' := Overlay(d, f);
      }
      hide Sound;
    case Save(settings, ok) =>
      SaveIsSound(p, d, f, settings, ok);
      d' := Newest(p.list);
      f' := if ok then d' else f;
      hide Sound;
    case Restart =>
      RestartIsSound(p, d, f);
      d' := [];
      hide Sound;
  }

  lemma FirstStartIsSound()
    ensures Sound(FIRST_START, [], [])
  {
    NothingIsTame();
    hide Tame, Numbers;
    assert StoreText([]) == "";
  }

  lemma {:induction false} RunsFrom(p: Phone, d: seq<string>, f: seq<string>, ops: seq<Op>)
    requires Sound(p, d, f) && SettingsOnly(ops)
    ensures EverySaveRestored(p, ops) <==> EverySaveGood(p, ops)
    decreases ops
  {
    hide Sound, Restored, AllGood, Newest, AllSettings;
    if ops != [] {
      assert ops[0] in ops;
      if IsStored(ops[0]) {
        SaveIsRestored(p, d, f, ops[0].settings);
        SaveKeepsNewest(p, ops[0].settings);
      }
      hide Step;
      if IsStored(ops[0]) ==> AllGood(Newest(p.list)) {
        var d', f' := StepIsSound(p, d, f, ops[0]);
        RunsFrom(Step(p, ops[0]), d', f', ops[1..]);
      }
    }
  }

  lemma SaveKeepsNewest(p: Phone, settings: seq<Entry>)
    ensures Step(p, Save(settings, true)).list == Newest(p.list)
  {
  }

  /** Over every run of dialling, being called, loading, saving and restarting, with
      any numbers, also when files cannot be read or written: a fresh process reads
      back the list of every save if and only if the file keeps the ten newest
      numbers at each of them. No number of an earlier time gets in between. */
  lemma SavedListsAreRestored(ops: seq<Op>)
    requires SettingsOnly(ops)
    ensures EverySaveRestored(FIRST_START, ops) <==> EverySaveGood(FIRST_START, ops)
  {
    FirstStartIsSound();
    hide *;
    RunsFrom(FIRST_START, [], [], ops);
  }

  lemma {:induction false} SoundAfter(p: Phone, d: seq<string>, f: seq<string>, ops: seq<Op>)
    returns (d': seq<string>, f': seq<string>)
    requires Sound(p, d, f) && SettingsOnly(ops) && EverySaveGood(p, ops)
    ensures Sound(Run(p, ops), d', f')
    decreases ops
  {
    hide Sound, Step, AllGood, Newest, AllSettings;
    d', f' := d, f;
    if ops != [] {
      assert ops[0] in ops;
      if IsStored(ops[0]) {
        SaveKeepsNewest(p, ops[0].settings);
      }
      d', f' := StepIsSound(p, d, f, ops[0]);
      d', f' := SoundAfter(Step(p, ops[0]), d', f', ops[1..]);
    }
  }

  lemma NewestIsSuffix(list: seq<string>)
    ensures var r := Newest(list);
            |r| == (if |list| <= 10 then |list| else 10) && r == list[|list| - |r|..]
  {
  }

  /** As long as that was so, the list has no duplicates. The next save keeps its last
      ten numbers, or all if there are no more, in their order, and writes their keys
      0..n-1 and no other numbered key: none of a longer list stays behind. */
  lemma SaveLeavesNoStaleKey(ops: seq<Op>, settings: seq<Entry>)
    requires SettingsOnly(ops) && EverySaveGood(FIRST_START, ops) && AllSettings(settings)
    ensures var before := Run(FIRST_START, ops);
            var after, db := Step(before, Save(settings, true)), ToSave(before, settings);
            && NoneTwice(before.list)
            && |after.list| == (if |before.list| <= 10 then |before.list| else 10)
            && after.list == before.list[|before.list| - |after.list|..]
            && after.file == StoreText(db)
            && Step(before, Save(settings, false)) == Phone(after.list, db, before.file)
            && (forall i: nat :: Seen(db, Key(i)) == if i < |after.list| then Some(after.list[i]) else None)
            && (Restored(after.file) == after.list <==> AllGood(after.list))
  {
    FirstStartIsSound();
    hide AllGood, Newest, Entries, Stripped, SetAll, StoreText, Restored, Run, ToSave;
    hide Seen, Key, EverySaveGood, Tame, FileHolds;
    var d, f := SoundAfter(FIRST_START, [], [], ops);
    var before := Run(FIRST_START, ops);
    SaveWrites(before, d, f, settings);
    SaveIsRestored(before, d, f, settings);
    NewestIsSuffix(before.list);
  }

  /** The other settings are saved along: their last values, and under any other key
      what it had before. In memory they then hold no line feed, and no key a carriage
      return. */
  lemma SettingsAreSaved(p: Phone, settings: seq<Entry>, key: string)
    requires key != "" && !IsNumberKey(key)
    ensures var v := Latest(settings, key);
            Seen(ToSave(p, settings), key) == if v.Some? then v else Seen(p.db, key)
    ensures forall e | e in Step(p, Save(settings, true)).db :: '\n' !in e.value && '\r' !in e.key
  {
    var db, list := SetAll(p.db, settings), Newest(p.list);
    forall e | e in Entries(list) ensures e.key != key {
      var i :| 0 <= i < |list| && Entries(list)[i] == e;
      assert e.key == Key(i);
    }
    forall e | e in Stripped(ToSave(p, settings)) ensures '\n' !in e.value && '\r' !in e.key {
    }
    hide Seen, Key, Entries, Stripped, SetAll, Newest, IsNumberKey;
    SeenAfterSetAll(p.db, settings, key);
    SeenAfterSetAll(db, Entries(list), key);
  }

  lemma {:induction false} RunsBoth(p: Phone, a: seq<Op>, b: seq<Op>)
    ensures Run(p, a + b) == Run(Run(p, a), b)
    ensures EverySaveGood(p, a + b) <==> EverySaveGood(p, a) && EverySaveGood(Run(p, a), b)
    decreases a
  {
    hide Step, AllGood;
    if a == [] {
      assert a + b == b;
    } else {
      assert (a + b)[1..] == a[1..] + b;
      RunsBoth(Step(p, a[0]), a[1..], b);
    }
  }

  lemma DialLast(p: Phone, number: string)
    ensures Run(p, [Dialled(number)]) == Step(p, Dialled(number))
    ensures EverySaveGood(p, [Dialled(number)])
    ensures number !in p.list ==> Step(p, Dialled(number)).list == p.list + [number]
    ensures number in p.list ==> Step(p, Dialled(number)) == p
  {
    assert [Dialled(number)][1..] == [];
  }

  /** A process that starts reads what is in the file, and leaves it as it is. */
  lemma FreshProcess(p: Phone)
    ensures var q := Step(Step(p, Restart), Load(true));
            q.list == Restored(p.file) && q.file == p.file
  {
  }

  /** Only a save that succeeds changes the file; a load that fails changes nothing. */
  lemma FileStays(p: Phone, op: Op)
    ensures !(op.Save? && op.ok) ==> Step(p, op).file == p.file
    ensures op == Load(false) ==> Step(p, op) == p
    ensures op.Load? || op.Dialled? ==> p.list <= Step(p, op).list
  {
    if op == Load(true) {
      ReadBackExtends(LoadText(p.db, p.file), p.list, 0);
    }
  }

  /** Loading adds to what is in memory: a key has the last value the file gives it, and
      without one what it had before. */
  lemma LoadAddsToMemory(p: Phone, key: string)
    requires key != ""
    ensures var v := Latest(Pieces(p.file), key);
            Seen(Step(p, Load(true)).db, key) == if v.Some? then v else Seen(p.db, key)
  {
    SeenAfterSetAll(p.db, Pieces(p.file), key);
    assert Step(p, Load(true)).db == SetAll(p.db, Pieces(p.file));
  }

  lemma {:induction false} ReadBackExtends(db: seq<Entry>, list: seq<string>, i: nat)
    ensures list <= ReadBack(db, list, i)
    decreases KeysFrom(db, i)
  {
    var number := Get(db, Key(i));
    if number != "" {
      FewerKeys(db, i);
      hide Key, Get, KeysFrom;
      ReadBackExtends(db, Remember(list, number), i + 1);
    }
  }

  /** A new number that is dialled right before a save is not among those thrown away:
      it is the last one that the next process reads. */
  lemma DialledNumberComesBack(ops: seq<Op>, number: string, settings: seq<Entry>)
    requires SettingsOnly(ops) && EverySaveGood(FIRST_START, ops) && AllSettings(settings)
    requires number !in Run(FIRST_START, ops).list
    ensures var after := Step(Run(FIRST_START, ops + [Dialled(number)]), Save(settings, true));
            AllGood(after.list) ==>
              var next := Step(Step(after, Restart), Load(true)).list;
              next != [] && next[|next| - 1] == number
  {
    var before, more := Run(FIRST_START, ops), ops + [Dialled(number)];
    RunsBoth(FIRST_START, ops, [Dialled(number)]);
    DialLast(before, number);
    assert SettingsOnly(more);
    hide Step, Run, EverySaveGood, SettingsOnly, AllGood, AllSettings, Restored;
    SaveLeavesNoStaleKey(more, settings);
    FreshProcess(Step(Run(FIRST_START, more), Save(settings, true)));
  }

  // ----- Which numbers are safe ----------------------------------------------

  lemma {:induction false} ReadNumbersFrom(list: seq<string>, d: seq<string>)
    requires AllGood(list) && AllGood(d)
    ensures AllGood(ReadNumbers(list, d))
    decreases d
  {
    hide Good;
    if d != [] && d[0] != "" {
      assert d[0] in d;
      ReadNumbersFrom(Remember(list, d[0]), d[1..]);
    }
  }

  lemma NewestIsGood(list: seq<string>)
    requires AllGood(list)
    ensures AllGood(Newest(list))
  {
    hide Good;
    forall n | n in Newest(list) ensures n in list {
    }
  }

  lemma OverlayIsGood(d: seq<string>, f: seq<string>)
    requires AllGood(d) && AllGood(f)
    ensures AllGood(Overlay(d, f))
  {
    hide Good;
  }

  /** All the numbers there are, in the list, the database and the file, are good. */
  ghost predicate GoodOnly(p: Phone, d: seq<string>, f: seq<string>) {
    Sound(p, d, f) && AllGood(p.list) && AllGood(d) && AllGood(f)
  }

  lemma StepIsGoodOnly(p: Phone, d: seq<string>, f: seq<string>, op: Op) returns (d': seq<string>, f': seq<string>)
    requires GoodOnly(p, d, f) && (op.Dialled? ==> Good(op.number)) && (op.Save? ==> AllSettings(op.settings))
    ensures GoodOnly(Step(p, op), d', f')
  {
    NewestIsGood(p.list);
    d', f' := d, f;
    match op
    case Dialled(number) =>
      d', f' := DialIsGoodOnly(p, d, f, number);
      hide GoodOnly;
    case Load(ok) =>
      if ok {
        LoadIsSound(p, d, f);
        d' := Overlay(d, f);
        OverlayIsGood(d, f);
        ReadNumbersFrom(p.list, d');
      }
      hide Sound, AllGood;
    case Save(settings, ok) =>
      SaveIsSound(p, d, f, settings, ok);
      d' := Newest(p.list);
      f' := if ok then d' else f;
      hide Sound, AllGood, Newest;
    case Restart =>
      RestartIsSound(p, d, f);
      d' := [];
      hide Sound;
  }

  lemma DialIsGoodOnly(p: Phone, d: seq<string>, f: seq<string>, number: string)
    returns (d': seq<string>, f': seq<string>)
    requires GoodOnly(p, d, f) && Good(number)
    ensures GoodOnly(Step(p, Dialled(number)), d', f')
  {
    hide Good, Tame, Numbers, FileHolds;
    RememberIsNoneTwice(p.list, number);
    hide NoneTwice, Remember;
    d', f' := d, f;
  }

  lemma {:induction false} GoodRunsFrom(p: Phone, d: seq<string>, f: seq<string>, ops: seq<Op>)
    requires GoodOnly(p, d, f) && SettingsOnly(ops)
    requires forall op | op in ops :: op.Dialled? ==> Good(op.number)
    ensures EverySaveGood(p, ops)
    decreases ops
  {
    if ops != [] {
      NewestIsGood(p.list);
      assert ops[0] in ops;
      if IsStored(ops[0]) {
        SaveKeepsNewest(p, ops[0].settings);
      }
      hide Sound, AllGood, Good, Step, Newest, AllSettings;
      var d', f' := StepIsGoodOnly(p, d, f, ops[0]);
      hide GoodOnly;
      GoodRunsFrom(Step(p, ops[0]), d', f', ops[1..]);
    }
  }

  ghost predicate DialsOnly(ops: seq<Op>, numbers: iset<string>) {
    SettingsOnly(ops) && forall op | op in ops :: op.Dialled? ==> op.number in numbers
  }

  lemma LostAtOnce(number: string)
    requires !Good(number)
    ensures !EverySaveRestored(FIRST_START, [Dialled(number), Save([], true)])
  {
    var ops := [Dialled(number), Save([], true)];
    assert Remember([], number) == [number] && Newest([number]) == [number];
    assert number in [number];
    hide Good, Restored;
    SavedListsAreRestored(ops);
    assert ops[1..] == [Save([], true)];
  }

  /** Phones that only ever meet numbers of a certain kind get back every list they
      save if and only if all numbers of that kind are good. */
  lemma SafeNumbers(numbers: iset<string>)
    ensures (forall ops | DialsOnly(ops, numbers) :: EverySaveRestored(FIRST_START, ops)) <==>
            (forall n | n in numbers :: Good(n))
  {
    hide Good, EverySaveRestored, IsSetting;
    forall n | n in numbers && !Good(n)
      ensures exists ops :: DialsOnly(ops, numbers) && !EverySaveRestored(FIRST_START, ops)
    {
      LostAtOnce(n);
      assert DialsOnly([Dialled(n), Save([], true)], numbers);
    }
    if forall n | n in numbers :: Good(n) {
      forall ops | DialsOnly(ops, numbers) ensures EverySaveRestored(FIRST_START, ops) {
        FirstStartIsSound();
        GoodRunsFrom(FIRST_START, [], [], ops);
        SavedListsAreRestored(ops);
      }
    }
  }

  // ----- A number that comes back --------------------------------------------

  lemma RunsFour(p: Phone, a: Op, b: Op, c: Op, d: Op)
    ensures Run(p, [a, b, c, d]) == Step(Step(Step(Step(p, a), b), c), d)
  {
    hide Step;
    assert [a, b, c, d][1..] == [b, c, d] && [b, c, d][1..] == [c, d] && [c, d][1..] == [d] && [d][1..] == [];
    RunsOne(Step(Step(Step(p, a), b), c), d);
    assert Run(Step(Step(p, a), b), [c, d]) == Run(Step(Step(Step(p, a), b), c), [d]);
  }

  lemma RunsOne(p: Phone, op: Op)
    ensures Run(p, [op]) == Step(p, op)
  {
    hide Step;
    assert [op][1..] == [];
    assert Run(Step(p, op), []) == Step(p, op);
  }

  lemma SaveOf(p: Phone, d: seq<string>, settings: seq<Entry>)
    requires Tame(p.db) && Numbers(p.db, d) && |p.list| <= SIZE && AllSettings(settings)
    ensures var after := Step(p, Save(settings, true));
            after.list == p.list && FileHolds(after.file, Overlay(d, p.list))
  {
    hide Tame, Numbers, StoreText, Stripped;
    SettingsSpareNumbers(p.db, d, settings);
    SetsNumbers(SetAll(p.db, settings), d, p.list);
    NumbersAreTame(SetAll(p.db, settings), p.list);
  }

  lemma FirstProcess(a: string, settings: seq<Entry>)
    requires Good(a) && AllSettings(settings)
    ensures FileHolds(Run(FIRST_START, [Load(false), Dialled(" "), Dialled(a), Save(settings, true)]).file, [" ", a])
  {
    var p := Phone([" ", a], [], "");
    RunsFour(FIRST_START, Load(false), Dialled(" "), Dialled(a), Save(settings, true));
    assert Step(Step(Step(FIRST_START, Load(false)), Dialled(" ")), Dialled(a)) == p;
    NothingIsTame();
    assert Overlay([], p.list) == p.list;
    hide Step, Good, FileHolds, Run, Tame, Numbers, AllSettings, Overlay;
    SaveOf(p, [], settings);
  }

  lemma SecondLoad(p: Phone, a: string)
    requires Good(a) && FileHolds(p.file, [" ", a])
    ensures var q := Step(Step(p, Restart), Load(true));
            q.list == [] && q.file == p.file && Tame(q.db) && Numbers(q.db, ["", a])
  {
    var f, d, db := [" ", a], ["", a], LoadText([], p.file);
    var g :| p.file == StoreText(g) && Tame(g) && Numbers(g, f);
    KeptPair(a);
    NothingIsTame();
    assert d[0] == "" && d[0..] == d && Overlay([], d) == d && ReadNumbers([], d) == [];
    LoadStep(p);
    hide *;
    LoadsKept([], [], g, f, d);
    ReadsNumbers(db, d, [], 0);
  }

  lemma LoadStep(p: Phone)
    ensures var db := LoadText([], p.file);
            Step(Step(p, Restart), Load(true)) == Phone(ReadBack(db, [], 0), db, p.file)
  {
  }

  lemma KeptPair(a: string)
    requires Good(a)
    ensures forall i | 0 <= i < 2 ::
              Plain([" ", a][i]) && |[" ", a][i]| <= 241 && Kept([" ", a][i]) == ["", a][i]
  {
    assert Kept(" ") == "";
    KeptIsTidy(a);
    hide Kept;
  }

  lemma SecondProcess(p: Phone, a: string, b: string, settings: seq<Entry>)
    requires Good(a) && FileHolds(p.file, [" ", a]) && AllSettings(settings)
    ensures var q := Run(p, [Restart, Load(true), Dialled(b), Save(settings, true)]);
            q.list == [b] && FileHolds(q.file, [b, a])
  {
    var loaded := Step(Step(p, Restart), Load(true));
    assert SIZE == 10;
    hide *;
    RunsFour(p, Restart, Load(true), Dialled(b), Save(settings, true));
    SecondLoad(p, a);
    DialStep(loaded, b);
    OverPair(a, b);
    SaveOf(Step(loaded, Dialled(b)), ["", a], settings);
  }

  lemma DialStep(p: Phone, number: string)
    requires p.list == []
    ensures Step(p, Dialled(number)) == Phone([number], p.db, p.file)
  {
  }

  lemma OverPair(a: string, b: string)
    ensures Overlay(["", a], [b]) == [b, a]
  {
  }

  lemma GoodPairIsRestored(file: string, a: string, b: string)
    requires Good(a) && Good(b) && a != b && FileHolds(file, [a, b])
    ensures Restored(file) == [a, b]
  {
    hide Restored, StoreText, Good, Tame, Numbers;
    var g :| file == StoreText(g) && Tame(g) && Numbers(g, [a, b]);
    GoodIsRestored(g, [a, b]);
  }

  /** A number made of a blank is lost in the file, and ends the reading there. The
      number behind it keeps its key, which the next process does not overwrite:
      it stands in the file it saves, and comes back from it. */
  lemma StaleNumberExample(a: string, b: string, settings: seq<Entry>)
    requires Good(a) && Good(b) && a != b && AllSettings(settings)
    ensures var p := Run(FIRST_START, [Load(false), Dialled(" "), Dialled(a), Save(settings, true)]);
            var q := Run(p, [Restart, Load(true), Dialled(b), Save(settings, true)]);
            q.list == [b] && Restored(q.file) == [b, a]
  {
    var p := Run(FIRST_START, [Load(false), Dialled(" "), Dialled(a), Save(settings, true)]);
    var q := Run(p, [Restart, Load(true), Dialled(b), Save(settings, true)]);
    hide *;
    FirstProcess(a, settings);
    SecondProcess(p, a, b, settings);
    GoodPairIsRestored(q.file, b, a);
  }

  // ----- A setting that becomes a number -------------------------------------

  /** A setting whose line exceeds one piece, and goes on there with a numbered key,
      gives a phone that knows no number the number behind it. */
  lemma SpilledSettingExample(k: string, v: string, number: string)
    requires IsName(k) && !IsNumberKey(k) && Plain(v) && |k| + 3 + |v| == LINE_LIMIT && Good(number)
    ensures var e := Entry(k, v + (Key(0) + " " + number));
            var p := Run(FIRST_START, [Save([e], true)]);
            !IsSetting(e) && p.list == [] && Restored(p.file) == [number]
  {
    var e := Entry(k, v + (Key(0) + " " + number));
    SpilledLine(k, v, number);
    var es := Pieces(StoredLine(e));
    assert es[1] in es && IsNumberKey(es[1].key);
    RunsOne(FIRST_START, Save([e], true));
    SavesOne(e);
    hide Key, Pieces, StoredLine, Run, Step, IsName, Good, Plain;
    SpilledIsRead(StoredLine(e), number);
  }

  lemma SavesOne(e: Entry)
    requires IsName(e.key)
    ensures var p := Step(FIRST_START, Save([e], true));
            p.list == [] && p.file == StoredLine(e)
  {
    var db := [e];
    assert Set([], e) == db && SetAll([], db) == SetAll(db, db[1..]) == db && Entries([]) == [];
    assert db[1..] == [] && StoreText([]) == "";
    hide StoredLine, Stripped, Set;
    assert StoreText(db) == StoredLine(e) + "" == StoredLine(e);
  }

  // ----- The code ------------------------------------------------------------

  /** The configuration file, and whether it can be read and written. */
  class SettingsFile {
    var text: string
    var readable: bool
    var writable: bool
  }

  class PhoneSettings {
    const disk: SettingsFile
    var configDb: seq<Entry>
    var mRecentNumbers: seq<string>

    function Now(): Phone
      reads this, disk
    {
      Phone(mRecentNumbers, configDb, disk.text)
    }

    /** A process starts. */
    constructor (d: SettingsFile)
      ensures disk == d && Now() == Step(Phone([], [], d.text), Restart)
    {
      disk := d;
      configDb := [];
      mRecentNumbers := [];
    }

    /** `OnDial`, and `OnRinging` with the caller's number. */
    method OnDial(phoneNumber: string)
      modifies this
      ensures Now() == Step(old(Now()), Dialled(phoneNumber))
      ensures mRecentNumbers == old(mRecentNumbers) + if phoneNumber in old(mRecentNumbers) then [] else [phoneNumber]
    {
      if phoneNumber !in mRecentNumbers {
        mRecentNumbers := mRecentNumbers + [phoneNumber];
      }
    }

    method LoadSettings() returns (ok: bool)
      modifies this
      ensures ok == disk.readable && Now() == Step(old(Now()), Load(ok))
      ensures !ok ==> mRecentNumbers == old(mRecentNumbers) && configDb == old(configDb)
    {
      hide Key, Get, LoadText, KeysFrom;
      ok := disk.readable;
      if !ok {
        return;
      }
      configDb := LoadText(configDb, disk.text);
      var i := 0;
      while true
        invariant configDb == LoadText(old(configDb), disk.text)
        invariant ReadBack(configDb, mRecentNumbers, i) == ReadBack(configDb, old(mRecentNumbers), 0)
        decreases KeysFrom(configDb, i)
      {
        var sTemp := Get(configDb, Key(i));
        if sTemp != "" {
          FewerKeys(configDb, i);
          if sTemp !in mRecentNumbers {
            mRecentNumbers := mRecentNumbers + [sTemp];
          }
        } else {
          break;
        }
        i := i + 1;
      }
    }

    /** First, get rid of the old numbers. */
    method DropOldNumbers()
      modifies this`mRecentNumbers
      ensures mRecentNumbers == Newest(old(mRecentNumbers))
      ensures |mRecentNumbers| == if |old(mRecentNumbers)| <= 10 then |old(mRecentNumbers)| else 10
      ensures mRecentNumbers == old(mRecentNumbers)[|old(mRecentNumbers)| - |mRecentNumbers|..]
    {
      ghost var all := mRecentNumbers;
      while |mRecentNumbers| > SIZE
        invariant |mRecentNumbers| <= |all| && mRecentNumbers == all[|all| - |mRecentNumbers|..]
        invariant |mRecentNumbers| >= SIZE || mRecentNumbers == all
      {
        mRecentNumbers := mRecentNumbers[1..];
      }
    }

    /** The other settings, one `set` each. */
    method WriteSettings(settings: seq<Entry>)
      modifies this`configDb
      ensures configDb == SetAll(old(configDb), settings)
    {
      hide Set;
      assert settings[0..] == settings;
      var i := 0;
      while i < |settings|
        invariant i <= |settings| && SetAll(configDb, settings[i..]) == SetAll(old(configDb), settings)
      {
        assert settings[i..][1..] == settings[i + 1..];
        configDb := Set(configDb, settings[i]);
        i := i + 1;
      }
    }

    method WriteNumbers()
      requires |mRecentNumbers| <= SIZE
      modifies this`configDb
      ensures configDb == SetAll(old(configDb), Entries(mRecentNumbers))
    {
      hide Key, Set;
      ghost var es := Entries(mRecentNumbers);
      assert es[0..] == es;
      var i := 0;
      while i < |mRecentNumbers|
        invariant i <= |es| && SetAll(configDb, es[i..]) == SetAll(old(configDb), es)
      {
        if i >= SIZE {
          break;
        }
        assert es[i..][1..] == es[i + 1..];
        configDb := Set(configDb, Entry(Key(i), mRecentNumbers[i]));
        i := i + 1;
      }
    }

    /** `storeToFile`: line feeds disappear from the values in memory, too. */
    method StoreToFile() returns (ok: bool)
      modifies this`configDb, disk`text
      ensures ok == disk.writable
      ensures configDb == if ok then Stripped(old(configDb)) else old(configDb)
      ensures disk.text == if ok then StoreText(old(configDb)) else old(disk.text)
    {
      ok := disk.writable;
      if !ok {
        return;
      }
      disk.text := "";
      ghost var db := configDb;
      StoreStep(db, 0, "");
      var i := 0;
      hide *;
      while i < |configDb|
        invariant |configDb| == |db| && i <= |db|
        invariant configDb == Stripped(db[..i]) + db[i..]
        invariant disk.text + StoreText(db[i..]) == StoreText(db)
      {
        StoreStep(db, i, disk.text);
        StoreEntry(i);
        i := i + 1;
      }
      StoreStep(db, i, disk.text);
    }

    /** One entry: stripped in place, then printed. */
    method StoreEntry(i: nat)
      requires i < |configDb|
      modifies this`configDb, disk`text
      ensures configDb == old(configDb)[i := StrippedOf(old(configDb)[i])]
      ensures disk.text == old(disk.text) + StoredLine(old(configDb)[i])
    {
      hide Without, CString;
      var key, value := Without(configDb[i].key, '\r'), Without(configDb[i].value, '\n');
      configDb := configDb[i := Entry(key, value)];
      disk.text := disk.text + (CString(key) + " : " + CString(value) + "\r\n");
    }

    method SaveSettings(settings: seq<Entry>) returns (ok: bool)
      modifies this, disk`text
      ensures ok == disk.writable && Now() == Step(old(Now()), Save(settings, ok))
      ensures |mRecentNumbers| == if |old(mRecentNumbers)| <= 10 then |old(mRecentNumbers)| else 10
      ensures mRecentNumbers == old(mRecentNumbers)[|old(mRecentNumbers)| - |mRecentNumbers|..]
      ensures !ok ==> disk.text == old(disk.text)
    {
      hide Entries, StoreText, Stripped, SetAll;
      NewestIsShort(mRecentNumbers);
      WriteSettings(settings);
      DropOldNumbers();
      WriteNumbers();
      ok := StoreToFile();
    }
  }

  lemma NewestIsShort(list: seq<string>)
    ensures |Newest(list)| <= SIZE
  {
  }

  /** One turn of the storing loop. */
  lemma StoreStep(db: seq<Entry>, i: nat, text: string)
    requires i <= |db|
    ensures |Stripped(db[..i])| == i
    ensures i == 0 ==> Stripped(db[..i]) + db[i..] == db && text + StoreText(db[i..]) == text + StoreText(db)
    ensures i == |db| ==> Stripped(db[..i]) + db[i..] == Stripped(db) && text + StoreText(db[i..]) == text
    ensures i < |db| ==>
              && (Stripped(db[..i]) + db[i..])[i := StrippedOf(db[i])] == Stripped(db[..i + 1]) + db[i + 1..]
              && (Stripped(db[..i]) + db[i..])[i] == db[i]
              && text + StoredLine(db[i]) + StoreText(db[i + 1..]) == text + StoreText(db[i..])
  {
    hide StrippedOf, StoredLine;
    if i < |db| {
      assert db[i..][1..] == db[i + 1..];
      assert StoreText(db[i..]) == StoredLine(db[i]) + StoreText(db[i + 1..]);
      hide StoreText;
      JoinThree(text, StoredLine(db[i]), StoreText(db[i + 1..]));
    } else {
      assert db[..i] == db;
    }
  }
}
