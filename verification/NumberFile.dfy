/** The numbered keys in a configuration file that also holds other settings: which
    lists of numbers come back from it. */
module NumberFile {
  import opened ConfigText
  import opened Decimals
  import opened Options
  import opened Sequences

  const SIZE := 10

  function Key(i: nat): string {
    "RECENT_ID_" + Decimal(i)
  }

  function Remember(list: seq<string>, number: string): seq<string> {
    if number in list then list else list + [number]
  }

  // ----- Numbered keys -------------------------------------------------------

  ghost predicate IsNumberKey(key: string) {
    exists i: nat :: key == Key(i)
  }

  lemma KeysDiffer(i: nat, j: nat)
    requires Key(i) == Key(j)
    ensures i == j
  {
    var prefix := "RECENT_ID_";
    assert Key(i)[|prefix|..] == Decimal(i) && Key(j)[|prefix|..] == Decimal(j);
    DecimalIsInjective(i, j);
  }

  lemma KeyIsName(i: nat)
    ensures IsName(Key(i)) && |Key(i)| >= 11 && (i < SIZE ==> |Key(i)| == 11)
  {
    var prefix := "RECENT_ID_";
    assert |prefix| == 10 && forall c | c in prefix :: !IsSpace(c) && c != '\0';
    forall c | c in Decimal(i) ensures '0' <= c <= '9' {
    }
  }

  /** The entries still to be read, when the keys before `i` have been. */
  function KeysFrom(db: seq<Entry>, i: nat): set<Entry> {
    set e | e in db && forall j: nat | j < i :: e.key != Key(j)
  }

  lemma FewerKeys(db: seq<Entry>, i: nat)
    requires Get(db, Key(i)) != ""
    ensures KeysFrom(db, i + 1) < KeysFrom(db, i)
  {
    var e := db[IndexOf(db, Key(i))];
    hide Key;
    forall j: nat | j < i ensures e.key != Key(j) {
      if e.key == Key(j) {
        KeysDiffer(i, j);
      }
    }
    assert e in KeysFrom(db, i) && e !in KeysFrom(db, i + 1);
  }

  /** Keys are read until the first that is missing or empty. */
  function ReadBack(db: seq<Entry>, list: seq<string>, i: nat): seq<string>
    decreases KeysFrom(db, i)
  {
    var number := Get(db, Key(i));
    if number == "" then list else
    FewerKeys(db, i);
    ReadBack(db, Remember(list, number), i + 1)
  }

  function Entries(list: seq<string>): seq<Entry> {
    seq(|list|, i requires 0 <= i < |list| => Entry(Key(i), list[i]))
  }

  /** What a fresh process reads from the file. */
  function Restored(file: string): seq<string> {
    ReadBack(LoadText([], file), [], 0)
  }

  // ----- Reading and writing numbers -----------------------------------------

  /** The numbered keys of the database are 0..n-1 and hold the numbers `d`. */
  ghost predicate Numbers(db: seq<Entry>, d: seq<string>) {
    forall i: nat :: Seen(db, Key(i)) == if i < |d| then Some(d[i]) else None
  }

  lemma LatestNumber(list: seq<string>, i: nat)
    ensures Latest(Entries(list), Key(i)) == if i < |list| then Some(list[i]) else None
  {
    hide Key, Latest;
    var es := Entries(list);
    var v := Latest(es, Key(i));
    if v.Some? {
      var j :| 0 <= j < |es| && es[j] == Entry(Key(i), v.value);
      KeysDiffer(i, j);
    }
    assert i < |list| ==> es[i] in es;
  }

  /** The numbers `f` over those of `d`. */
  function Overlay(d: seq<string>, f: seq<string>): seq<string> {
    if |d| <= |f| then f else f + d[|f|..]
  }

  /** Entries that set the keys of the numbers `f`, and no other numbered key. */
  lemma OverlaysNumbers(db: seq<Entry>, d: seq<string>, es: seq<Entry>, f: seq<string>)
    requires Numbers(db, d)
    requires forall i: nat :: Latest(es, Key(i)) == if i < |f| then Some(f[i]) else None
    ensures Numbers(SetAll(db, es), Overlay(d, f))
  {
    hide Key, Seen, Latest, SetAll;
    forall i: nat
      ensures Seen(SetAll(db, es), Key(i)) == if i < |Overlay(d, f)| then Some(Overlay(d, f)[i]) else None
    {
      KeyIsName(i);
      SeenAfterSetAll(db, es, Key(i));
      assert Latest(es, Key(i)) == if i < |f| then Some(f[i]) else None;
    }
  }

  lemma SetsNumbers(db: seq<Entry>, d: seq<string>, list: seq<string>)
    requires Numbers(db, d)
    ensures Numbers(SetAll(db, Entries(list)), Overlay(d, list))
  {
    hide Key, Entries, Latest;
    forall i: nat ensures Latest(Entries(list), Key(i)) == if i < |list| then Some(list[i]) else None {
      LatestNumber(list, i);
    }
    OverlaysNumbers(db, d, Entries(list), list);
  }

  /** Reading numbers up to the first empty one. */
  function ReadNumbers(list: seq<string>, d: seq<string>): seq<string>
    decreases d
  {
    if d == [] || d[0] == "" then list else ReadNumbers(Remember(list, d[0]), d[1..])
  }

  lemma {:induction false} ReadsNumbers(db: seq<Entry>, d: seq<string>, list: seq<string>, i: nat)
    requires Numbers(db, d) && i <= |d|
    ensures ReadBack(db, list, i) == ReadNumbers(list, d[i..])
    decreases |d| - i
  {
    hide Key, Seen, KeysFrom;
    assert Seen(db, Key(i)) == if i < |d| then Some(d[i]) else None;
    if i < |d| && d[i] != "" {
      ReadsNumbers(db, d, Remember(list, d[i]), i + 1);
      assert d[i..][1..] == d[i + 1..];
    }
  }

  lemma RememberIsNoneTwice(list: seq<string>, number: string)
    requires NoneTwice(list)
    ensures var r := Remember(list, number);
            NoneTwice(r) && list <= r && number in r && forall n | n in r :: n in list || n == number
  {
  }

  lemma {:induction false} ReadingGrows(list: seq<string>, d: seq<string>)
    requires NoneTwice(list)
    ensures NoneTwice(ReadNumbers(list, d)) && list <= ReadNumbers(list, d)
    ensures "" !in d ==> forall n | n in d :: n in ReadNumbers(list, d)
    decreases d
  {
    if d != [] && d[0] != "" {
      RememberIsNoneTwice(list, d[0]);
      var next := Remember(list, d[0]);
      hide Remember, NoneTwice;
      ReadingGrows(next, d[1..]);
      if "" !in d {
        forall n | n in d ensures n in ReadNumbers(list, d) {
          assert n == d[0] || n in d[1..];
          assert d[0] in next;
        }
      }
    }
  }

  lemma {:induction false} ReadsAll(list: seq<string>, i: nat)
    requires i <= |list| && NoneTwice(list) && "" !in list
    ensures ReadNumbers(list[..i], list[i..]) == list
    decreases |list| - i
  {
    if i == |list| {
      assert list[..i] == list;
    } else {
      assert list[i] !in list[..i];
      assert list[..i] + [list[i]] == list[..i + 1] && list[i..][1..] == list[i + 1..];
      assert list[i] in list;
      ReadsAll(list, i + 1);
    }
  }

  // ----- The other settings --------------------------------------------------

  /** A setting that is no recent number and whose line, read in pieces, does not
      spill over into one. */
  ghost predicate IsSetting(e: Entry) {
    IsName(e.key) && !IsNumberKey(e.key) && forall x | x in Pieces(StoredLine(e)) :: !IsNumberKey(x.key)
  }

  /** Every setting that fits on its line is one. */
  lemma FittingSetting(e: Entry)
    requires Fits(e) && !IsNumberKey(e.key)
    ensures IsSetting(e)
  {
    hide Key, Pieces, StoredLine, Latest, Kept, Written;
    forall x, i: nat | x in Pieces(StoredLine(e)) ensures x.key != Key(i) {
      KeyIsName(i);
      EntryIsRead(e, Key(i));
    }
  }

  lemma ShortIsNoNumber(k: string)
    requires |k| <= 5
    ensures !IsNumberKey(k)
  {
    hide Key;
    forall i: nat ensures k != Key(i) {
      KeyIsName(i);
    }
  }

  /** Each key once; besides the numbers only settings. */
  ghost predicate Tame(db: seq<Entry>) {
    UniqueKeys(db) && forall e | e in db :: IsName(e.key) && (IsNumberKey(e.key) || IsSetting(e))
  }

  lemma StaysTame(db: seq<Entry>, es: seq<Entry>)
    requires Tame(db)
    requires forall e | e in es :: e.key == "" || (IsName(e.key) && (IsNumberKey(e.key) || IsSetting(e)))
    ensures Tame(SetAll(db, es))
  {
    hide IsSetting, IsNumberKey, IsName, UniqueKeys;
    SetAllEntries(db, es);
  }

  /** Whatever a file holds, what is read from it is tame. */
  lemma PieceIsTame(text: string, e: Entry)
    requires e in Pieces(text) && e.key != ""
    ensures IsName(e.key) && (IsNumberKey(e.key) || IsSetting(e))
  {
    PiecesAreLegible(text);
    assert Legible(e);
    if !IsNumberKey(e.key) {
      LineOf(e);
      assert |StoredLine(e)| <= LINE_LIMIT + 5;
      hide StoredLine, Pieces, IsName;
      LineIsShort(e);
      forall x | x in Pieces(StoredLine(e)) ensures !IsNumberKey(x.key) {
        if |x.key| <= 5 {
          ShortIsNoNumber(x.key);
        }
      }
    }
  }

  lemma SettingsSpareNumbers(db: seq<Entry>, d: seq<string>, settings: seq<Entry>)
    requires Tame(db) && Numbers(db, d) && forall e | e in settings :: IsSetting(e)
    ensures Tame(SetAll(db, settings)) && Numbers(SetAll(db, settings), d)
  {
    hide UniqueKeys, Pieces, StoredLine, IsName;
    StaysTame(db, settings);
    hide Tame;
    forall i: nat ensures Latest(settings, Key(i)).None? {
      forall e | e in settings ensures e.key != Key(i) {
        assert IsSetting(e);
      }
    }
    hide IsSetting, IsNumberKey, Latest;
    OverlaysNumbers(db, d, settings, []);
    assert Overlay(d, []) == d;
  }

  lemma NumbersAreTame(db: seq<Entry>, list: seq<string>)
    requires Tame(db)
    ensures Tame(SetAll(db, Entries(list)))
  {
    forall e | e in Entries(list) ensures IsName(e.key) && IsNumberKey(e.key) {
      var i :| 0 <= i < |list| && Entries(list)[i] == e;
      KeyIsName(i);
    }
    hide Tame, IsSetting, Entries;
    StaysTame(db, Entries(list));
  }

  lemma SeenEntry(db: seq<Entry>, e: Entry)
    requires UniqueKeys(db) && e in db
    ensures Seen(db, e.key) == Some(e.value)
  {
    hide IndexOf;
    var i :| 0 <= i < |db| && db[i] == e;
    var j := IndexOf(db, e.key);
    assert j >= 0;
  }

  /** What a file of settings and numbers gives back: of each number what is kept of
      it, as long as the numbers fit on their lines. */
  lemma FileNumbers(g: seq<Entry>, f: seq<string>, kept: seq<string>, i: nat)
    requires Tame(g) && Numbers(g, f) && |f| == |kept| <= SIZE
    requires forall j | 0 <= j < |f| :: Plain(f[j]) && |f[j]| <= 241 && Kept(f[j]) == kept[j]
    ensures Latest(Pieces(StoreText(g)), Key(i)) == if i < |f| then Some(kept[i]) else None
  {
    KeyIsName(i);
    forall e | e in g
      ensures if e.key == Key(i) then Fits(e) else Spares(e, Key(i))
    {
      FitsOrSpares(g, f, e, i);
    }
    hide Key, Kept, Written, Latest, Pieces, Seen, Fits, Spares, StoreText;
    hide IsSetting, IsNumberKey, IsName, Numbers, UniqueKeys;
    FileGivesBack(g, Key(i));
    LatestIsSeen(g, Key(i));
    assert Seen(g, Key(i)) == (if i < |f| then Some(f[i]) else None) by { NumberAt(g, f, i); }
    if i < |f| {
      PlainIsWritten(f[i]);
    }
  }

  lemma NumberAt(g: seq<Entry>, f: seq<string>, i: nat)
    requires Numbers(g, f)
    ensures Seen(g, Key(i)) == if i < |f| then Some(f[i]) else None
  {
  }

  lemma FitsOrSpares(g: seq<Entry>, f: seq<string>, e: Entry, i: nat)
    requires Tame(g) && Numbers(g, f) && e in g && |f| <= SIZE
    requires forall j | 0 <= j < |f| :: Plain(f[j]) && |f[j]| <= 241
    ensures if e.key == Key(i) then Fits(e) else Spares(e, Key(i))
  {
    KeyIsName(i);
    if IsNumberKey(e.key) {
      var j: nat :| e.key == Key(j);
      hide Key, Pieces, StoredLine, Kept, Latest, IsSetting, IsNumberKey, Seen;
      SeenEntry(g, e);
      NumberAt(g, f, j);
      KeyIsName(j);
      PlainIsWritten(f[j]);
      hide Written, IsName;
      assert Fits(e);
      if e.key != Key(i) {
        EntryIsRead(e, Key(i));
      }
    } else {
      hide Key, StoredLine, Pieces, IsName, Numbers;
      assert IsSetting(e);
    }
  }

  // ----- Which lists a file keeps --------------------------------------------

  /** A number the file keeps: not empty, without line feed and NUL, no separator
      in front, no white space behind, and at most 241 characters, as many as the
      first piece of its line has room for. */
  predicate Good(number: string) {
    number != "" && Plain(number) && Tidy(number) && |number| <= 241
  }

  ghost predicate AllGood(list: seq<string>) {
    forall n | n in list :: Good(n)
  }

  lemma LoadsGood(db: seq<Entry>, d: seq<string>, g: seq<Entry>, f: seq<string>)
    requires Tame(db) && Numbers(db, d)
    requires Tame(g) && Numbers(g, f) && |f| <= SIZE && AllGood(f)
    ensures var loaded := LoadText(db, StoreText(g));
            Tame(loaded) && Numbers(loaded, Overlay(d, f))
  {
    forall j | 0 <= j < |f| ensures Plain(f[j]) && |f[j]| <= 241 && Kept(f[j]) == f[j] {
      assert f[j] in f;
      KeptIsTidy(f[j]);
    }
    LoadsKept(db, d, g, f, f);
  }

  lemma LoadsKept(db: seq<Entry>, d: seq<string>, g: seq<Entry>, f: seq<string>, kept: seq<string>)
    requires Tame(db) && Numbers(db, d)
    requires Tame(g) && Numbers(g, f) && |f| == |kept| <= SIZE
    requires forall j | 0 <= j < |f| :: Plain(f[j]) && |f[j]| <= 241 && Kept(f[j]) == kept[j]
    ensures var loaded := LoadText(db, StoreText(g));
            Tame(loaded) && Numbers(loaded, Overlay(d, kept))
  {
    var es := Pieces(StoreText(g));
    assert LoadText(db, StoreText(g)) == SetAll(db, es);
    hide *;
    forall i: nat ensures Latest(es, Key(i)) == if i < |kept| then Some(kept[i]) else None {
      FileNumbers(g, f, kept, i);
    }
    OverlaysNumbers(db, d, es, kept);
    forall e | e in es && e.key != "" ensures IsName(e.key) && (IsNumberKey(e.key) || IsSetting(e)) {
      PieceIsTame(StoreText(g), e);
    }
    StaysTame(db, es);
  }

  lemma NothingIsTame()
    ensures Tame([]) && Numbers([], [])
  {
  }

  lemma GoodIsRestored(g: seq<Entry>, list: seq<string>)
    requires Tame(g) && Numbers(g, list)
    requires |list| <= SIZE && AllGood(list) && NoneTwice(list)
    ensures Restored(StoreText(g)) == list
  {
    NothingIsTame();
    assert Overlay([], list) == list && list[..0] == [] && list[0..] == list;
    assert "" !in list;
    hide Tame, Numbers, LoadText, StoreText, ReadBack, AllGood;
    LoadsGood([], [], g, list);
    ReadsNumbers(LoadText([], StoreText(g)), list, [], 0);
    ReadsAll(list, 0);
  }

  /** The number stands under a numbered key. */
  ghost predicate Stands(db: seq<Entry>, number: string) {
    number != "" && exists i: nat :: Entry(Key(i), number) in db
  }

  lemma {:induction false} ReadBackStands(db: seq<Entry>, list: seq<string>, i: nat)
    requires NoneTwice(list)
    ensures NoneTwice(ReadBack(db, list, i))
    ensures forall n | n in ReadBack(db, list, i) :: n in list || Stands(db, n)
    decreases KeysFrom(db, i)
  {
    var number := Get(db, Key(i));
    if number != "" {
      NumberStands(db, i);
      RememberIsNoneTwice(list, number);
      FewerKeys(db, i);
      hide Key, Get, Stands, Remember, NoneTwice, KeysFrom;
      ReadBackStands(db, Remember(list, number), i + 1);
    }
  }

  lemma NumberStands(db: seq<Entry>, i: nat)
    requires Get(db, Key(i)) != ""
    ensures Stands(db, Get(db, Key(i)))
  {
    hide Key, IndexOf;
    assert db[IndexOf(db, Key(i))] in db;
    assert db[IndexOf(db, Key(i))] == Entry(Key(i), Get(db, Key(i)));
  }

  /** A piece that gives a number comes from the line of a number, and has only what
      fits on it. */
  lemma NumberFits(g: seq<Entry>, list: seq<string>, i: nat, n: string)
    requires Tame(g) && Numbers(g, list) && |list| <= SIZE && forall x | x in list :: |x| <= 243
    requires Entry(Key(i), n) in Pieces(StoreText(g))
    ensures |n| <= 241
  {
    var e, j := LineOfNumber(g, i, n);
    KeyIsName(i);
    NumberLineIsShort(g, list, e, j);
    hide *;
    LineIsShort(e);
    assert Entry(Key(i), n) in Pieces(StoredLine(e));
  }

  lemma LineOfNumber(g: seq<Entry>, i: nat, n: string) returns (e: Entry, j: nat)
    requires Tame(g) && Entry(Key(i), n) in Pieces(StoreText(g))
    ensures e in g && Entry(Key(i), n) in Pieces(StoredLine(e)) && e.key == Key(j)
  {
    hide Key, Pieces, StoreText, StoredLine, UniqueKeys, IsName;
    var x := Entry(Key(i), n);
    e := PiecesOfFile(g, x);
    assert IsNumberKey(x.key);
    assert !IsSetting(e);
    j :| e.key == Key(j);
  }

  lemma NumberLineIsShort(g: seq<Entry>, list: seq<string>, e: Entry, j: nat)
    requires UniqueKeys(g) && e in g && Numbers(g, list) && |list| <= SIZE && forall x | x in list :: |x| <= 243
    requires e.key == Key(j)
    ensures IsName(e.key) && |e.key| == 11 && |StoredLine(e)| <= LINE_LIMIT + 5
  {
    hide Key, UniqueKeys;
    SeenEntry(g, e);
    NumberAt(g, list, j);
    hide Seen, Numbers;
    assert list[j] in list;
    KeyIsName(j);
    LineOf(e);
    hide StoredLine, IsName;
  }

  lemma NumberIsLegible(text: string, n: string) returns (i: nat)
    requires Stands(LoadText([], text), n)
    ensures Entry(Key(i), n) in Pieces(text)
    ensures n != "" && Plain(n) && Tidy(n) && |n| <= 243
  {
    hide Key, Pieces, Plain, Tidy, SetAll, IsName;
    i :| Entry(Key(i), n) in LoadText([], text);
    SetAllEntries([], Pieces(text));
    PiecesAreLegible(text);
    assert Legible(Entry(Key(i), n));
    KeyIsName(i);
  }

  lemma RestoredIsGood(g: seq<Entry>, list: seq<string>)
    requires Tame(g) && Numbers(g, list) && |list| <= SIZE
    requires Restored(StoreText(g)) == list
    ensures NoneTwice(list) && AllGood(list)
  {
    var text := StoreText(g);
    ReadBackStands(LoadText([], text), [], 0);
    hide Key, Tame, Numbers, Pieces, StoreText, LoadText, ReadBack, Plain, Tidy, NoneTwice, Stands;
    forall n | n in list ensures |n| <= 243 {
      var i := NumberIsLegible(text, n);
    }
    forall n | n in list ensures Good(n) {
      var i := NumberIsLegible(text, n);
      NumberFits(g, list, i, n);
    }
  }

  /** A file of settings and at most ten numbers gives the numbers back exactly when
      none of them stands there twice and the file keeps each of them. */
  lemma RestoredExactly(g: seq<Entry>, list: seq<string>)
    requires Tame(g) && Numbers(g, list) && |list| <= SIZE
    ensures Restored(StoreText(g)) == list <==> NoneTwice(list) && AllGood(list)
  {
    hide *;
    if Restored(StoreText(g)) == list {
      RestoredIsGood(g, list);
    } else if NoneTwice(list) && AllGood(list) {
      GoodIsRestored(g, list);
    }
  }

  // ----- Settings that spill --------------------------------------------------

  lemma SpilledLine(k: string, v: string, number: string)
    requires IsName(k) && Plain(v) && |k| + 3 + |v| == LINE_LIMIT && Good(number)
    ensures var es := Pieces(StoredLine(Entry(k, v + (Key(0) + " " + number))));
            |es| == 2 && es[0].key == k && es[1] == Entry(Key(0), number)
  {
    NumberLine(number);
    hide *;
    Spills(k, v, Key(0) + " " + number);
  }

  lemma SpacedIsPlain(k: string, w: string)
    requires Plain(k) && Plain(w)
    ensures Plain(k + " " + w)
  {
  }

  lemma NumberLine(number: string)
    requires Good(number)
    ensures Plain(Key(0) + " " + number)
    ensures Pieces(Key(0) + " " + number + "\r\n") == [Entry(Key(0), number)]
  {
    KeyIsName(0);
    NameIsWritten(Key(0));
    KeptIsTidy(number);
    var k := Key(0);
    assert Plain(k) && Plain(number) && |number| <= 241;
    SpacedIsPlain(k, number);
    hide *;
    LooksLikeEntry(k, number);
  }

  lemma SpilledIsRead(text: string, number: string)
    requires number != ""
    requires var es := Pieces(text); |es| == 2 && !IsNumberKey(es[0].key) && es[1] == Entry(Key(0), number)
    ensures Restored(text) == [number]
  {
    var es := Pieces(text);
    NothingIsTame();
    hide Key, Pieces, Numbers, ReadBack, SetAll;
    forall i: nat ensures Latest(es, Key(i)) == if i < 1 then Some([number][i]) else None {
      if es[1].key == Key(i) {
        KeysDiffer(0, i);
      }
      assert es[1..] == [es[1]];
    }
    hide Latest;
    OverlaysNumbers([], [], es, [number]);
    assert Overlay([], [number]) == [number] && [number][0..] == [number];
    ReadsNumbers(LoadText([], text), [number], [], 0);
    assert ReadNumbers([], [number]) == [number] by {
      assert [] + [number] == [number] && [number][1..] == [];
    }
  }
}
