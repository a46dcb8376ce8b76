/** The configuration database: a list of entries sorted by key, how it is written
    to a file, one line an entry, and what reading such a file makes of it. */
module ConfigText {
  import opened Options
  import opened UtlStrings

  /** The longest piece `fgets` returns. */
  const LINE_LIMIT := 255

  predicate IsSpace(c: char) {
    c == ' ' || c == '\t' || c == '\n' || c == '\r' || c == '\U{000B}' || c == '\U{000C}'
  }

  predicate NotSpace(c: char) {
    !IsSpace(c)
  }

  /** Neither white space nor a colon: what a value starts with. */
  predicate NoSeparator(c: char) {
    !IsSpace(c) && c != ':'
  }

  predicate IsLineFeed(c: char) {
    c == '\n'
  }

  datatype Entry = Entry(key: string, value: string)

  // ----- The database --------------------------------------------------------

  /** The entry with this key, or -1. */
  function IndexOf(db: seq<Entry>, key: string): (r: int)
    ensures -1 <= r < |db| && (r >= 0 ==> db[r].key == key)
    ensures r == -1 ==> forall e | e in db :: e.key != key
  {
    if db == [] then -1
    else if db[0].key == key then 0
    else var r := IndexOf(db[1..], key); if r == -1 then -1 else r + 1
  }

  function Seen(db: seq<Entry>, key: string): Option<string> {
    var i := IndexOf(db, key);
    if i == -1 then None else Some(db[i].value)
  }

  /** A key that is missing reads as empty. */
  function Get(db: seq<Entry>, key: string): string {
    var v := Seen(db, key);
    if v.None? then "" else v.value
  }

  /** Sorted insertion: before the first entry whose key is not below. */
  function InsertSorted(db: seq<Entry>, e: Entry): seq<Entry> {
    if db == [] || !Below(db[0].key, e.key) then [e] + db
    else [db[0]] + InsertSorted(db[1..], e)
  }

  /** A key that is there gets the new value; an empty key is ignored. */
  function Set(db: seq<Entry>, e: Entry): seq<Entry> {
    var i := IndexOf(db, e.key);
    if e.key == "" then db
    else if i >= 0 then db[i := e] else InsertSorted(db, e)
  }

  function SetAll(db: seq<Entry>, entries: seq<Entry>): seq<Entry>
    decreases |entries|
  {
    if entries == [] then db else SetAll(Set(db, entries[0]), entries[1..])
  }

  ghost predicate SortedByKey(db: seq<Entry>) {
    forall i, j | 0 <= i < j < |db| :: Below(db[i].key, db[j].key)
  }

  lemma {:induction false} InsertKeepsSorted(db: seq<Entry>, e: Entry)
    requires SortedByKey(db) && forall x | x in db :: x.key != e.key
    ensures SortedByKey(InsertSorted(db, e))
    ensures forall x | x in InsertSorted(db, e) :: x in db || x == e
    decreases |db|
  {
    hide Below;
    if db == [] || !Below(db[0].key, e.key) {
      forall i | 0 <= i < |db| ensures Below(e.key, db[i].key) {
        assert db[0] in db;
        BelowIsTotal(e.key, db[0].key);
        if i > 0 {
          BelowIsTransitive(e.key, db[0].key, db[i].key);
        }
      }
    } else {
      var later := InsertSorted(db[1..], e);
      assert forall x | x in db[1..] :: x in db;
      InsertKeepsSorted(db[1..], e);
      forall i | 0 <= i < |later| ensures Below(db[0].key, later[i].key) {
        assert later[i] in later;
        if later[i] != e {
          var j :| 0 <= j < |db[1..]| && db[1..][j] == later[i];
          assert db[j + 1] == later[i];
        }
      }
    }
  }

  /** The database stays sorted by key. */
  lemma SetKeepsSorted(db: seq<Entry>, e: Entry)
    requires SortedByKey(db)
    ensures SortedByKey(Set(db, e))
  {
    hide Below;
    if e.key != "" && IndexOf(db, e.key) == -1 {
      InsertKeepsSorted(db, e);
      hide InsertSorted;
    }
    hide IndexOf;
  }

  /** The last value that a list of entries gives a key. */
  function Latest(entries: seq<Entry>, key: string): (r: Option<string>)
    ensures r.None? <==> forall e | e in entries :: e.key != key
    ensures r.Some? ==> Entry(key, r.value) in entries
  {
    if entries == [] then None else
    var later := Latest(entries[1..], key);
    if later.Some? then later
    else if entries[0].key == key then Some(entries[0].value) else None
  }

  ghost predicate UniqueKeys(db: seq<Entry>) {
    forall i, j | 0 <= i < j < |db| :: db[i].key != db[j].key
  }

  lemma {:induction false} InsertedEntries(db: seq<Entry>, e: Entry)
    requires forall x | x in db :: x.key != e.key
    ensures forall x | x in InsertSorted(db, e) :: x in db || x == e
    ensures UniqueKeys(db) ==> UniqueKeys(InsertSorted(db, e))
    decreases |db|
  {
    if db != [] && Below(db[0].key, e.key) {
      InsertedEntries(db[1..], e);
      assert db[0] in db;
      var later := InsertSorted(db[1..], e);
      forall x | x in later ensures (x in db || x == e) && (UniqueKeys(db) ==> x.key != db[0].key) {
        assert x in db[1..] || x == e;
      }
      hide InsertSorted;
      assert UniqueKeys(db) ==> UniqueKeys(db[1..]);
    } else {
      assert UniqueKeys(db) ==> forall i | 0 <= i < |db| :: db[i] in db;
    }
  }

  lemma SetEntries(db: seq<Entry>, e: Entry)
    ensures forall x | x in Set(db, e) :: x in db || (x == e && e.key != "")
    ensures UniqueKeys(db) ==> UniqueKeys(Set(db, e))
  {
    if IndexOf(db, e.key) == -1 {
      InsertedEntries(db, e);
    }
    hide IndexOf, InsertSorted;
  }

  lemma {:induction false} SetAllEntries(db: seq<Entry>, entries: seq<Entry>)
    ensures forall x | x in SetAll(db, entries) :: x in db || (x in entries && x.key != "")
    ensures UniqueKeys(db) ==> UniqueKeys(SetAll(db, entries))
    decreases |entries|
  {
    hide Set, UniqueKeys;
    if entries != [] {
      SetEntries(db, entries[0]);
      SetAllEntries(Set(db, entries[0]), entries[1..]);
    }
  }

  lemma {:induction false} SeenAfterInsert(db: seq<Entry>, e: Entry, key: string)
    requires forall x | x in db :: x.key != e.key
    ensures Seen(InsertSorted(db, e), key) == if e.key == key then Some(e.value) else Seen(db, key)
    decreases |db|
  {
    if db != [] && Below(db[0].key, e.key) {
      SeenAfterInsert(db[1..], e, key);
      assert ([db[0]] + InsertSorted(db[1..], e))[1..] == InsertSorted(db[1..], e);
      assert db[0] in db;
    } else {
      assert ([e] + db)[1..] == db;
    }
  }

  lemma {:induction false} SeenAfterUpdate(db: seq<Entry>, e: Entry, key: string)
    requires IndexOf(db, e.key) >= 0
    ensures Seen(db[IndexOf(db, e.key) := e], key) == if e.key == key then Some(e.value) else Seen(db, key)
    decreases |db|
  {
    var i := IndexOf(db, e.key);
    if i == 0 {
      assert db[i := e][1..] == db[1..];
    } else {
      SeenAfterUpdate(db[1..], e, key);
      assert db[i := e][1..] == db[1..][i - 1 := e];
    }
  }

  lemma SeenAfterSet(db: seq<Entry>, e: Entry, key: string)
    requires key != ""
    ensures Seen(Set(db, e), key) == if e.key == key then Some(e.value) else Seen(db, key)
  {
    hide Seen, InsertSorted;
    if IndexOf(db, e.key) >= 0 {
      SeenAfterUpdate(db, e, key);
    } else {
      SeenAfterInsert(db, e, key);
    }
  }

  /** What a key says after a list of settings: its last value there, if it has one. */
  lemma {:induction false} SeenAfterSetAll(db: seq<Entry>, entries: seq<Entry>, key: string)
    requires key != ""
    ensures Seen(SetAll(db, entries), key) ==
            if Latest(entries, key).Some? then Latest(entries, key) else Seen(db, key)
    decreases |entries|
  {
    hide Seen, Set;
    if entries != [] {
      SeenAfterSet(db, entries[0], key);
      SeenAfterSetAll(Set(db, entries[0]), entries[1..], key);
    }
  }

  lemma {:induction false} LatestOfBoth(a: seq<Entry>, b: seq<Entry>, key: string)
    ensures Latest(a + b, key) == if Latest(b, key).Some? then Latest(b, key) else Latest(a, key)
    decreases |a|
  {
    if a == [] {
      assert a + b == b;
    } else {
      assert (a + b)[1..] == a[1..] + b;
      LatestOfBoth(a[1..], b, key);
    }
  }

  lemma {:induction false} LatestIsSeen(db: seq<Entry>, key: string)
    requires UniqueKeys(db)
    ensures Latest(db, key) == Seen(db, key)
    decreases |db|
  {
    if db != [] {
      LatestIsSeen(db[1..], key);
      if db[0].key == key {
        forall x | x in db[1..] ensures x.key != key {
        }
      }
    }
  }

  // ----- Storing -------------------------------------------------------------

  function Without(s: string, c: char): (r: string)
    ensures c !in r && |r| <= |s| && (c !in s ==> r == s)
    ensures forall x | x in r :: x in s
  {
    if s == "" then "" else (if s[0] == c then "" else [s[0]]) + Without(s[1..], c)
  }

  /** Just the one character is dropped. */
  lemma {:induction false} WithoutInParts(a: string, c: char, b: string)
    ensures Without(a + b, c) == Without(a, c) + Without(b, c) && Without([c], c) == ""
    decreases |a|
  {
    assert Without([c], c) == "";
    if a == "" {
      assert a + b == b;
    } else {
      assert (a + b)[1..] == a[1..] + b;
      WithoutStep(a, c);
      WithoutStep(a + b, c);
      hide Without;
      WithoutInParts(a[1..], c, b);
      JoinThree(if a[0] == c then "" else [a[0]], Without(a[1..], c), Without(b, c));
    }
  }

  lemma WithoutStep(s: string, c: char)
    requires s != ""
    ensures Without(s, c) == (if s[0] == c then "" else [s[0]]) + Without(s[1..], c)
  {
  }

  /** Storing drops carriage returns from the keys in memory, and line feeds from
      the values. */
  function Stripped(db: seq<Entry>): seq<Entry> {
    seq(|db|, i requires 0 <= i < |db| => StrippedOf(db[i]))
  }

  function StrippedOf(e: Entry): Entry {
    Entry(Without(e.key, '\r'), Without(e.value, '\n'))
  }

  predicate Plain(s: string) {
    '\0' !in s && '\n' !in s
  }

  /** What is written of a value. */
  function Written(v: string): (r: string)
    ensures Plain(r) && |r| <= |v| && (Plain(v) ==> r == v)
  {
    CString(Without(v, '\n'))
  }

  function StoredLine(e: Entry): string {
    CString(Without(e.key, '\r')) + " : " + Written(e.value) + "\r\n"
  }

  function StoreText(db: seq<Entry>): string {
    if db == [] then "" else StoredLine(db[0]) + StoreText(db[1..])
  }

  // ----- Loading -------------------------------------------------------------

  /** The first position at or after `i` where `stop` holds, or the end. */
  function Until(s: string, i: nat, stop: char -> bool): (r: nat)
    requires i <= |s|
    ensures i <= r <= |s| && (r < |s| ==> stop(s[r]))
    ensures forall j | i <= j < r :: !stop(s[j])
    decreases |s| - i
  {
    if i == |s| || stop(s[i]) then i else Until(s, i + 1, stop)
  }

  /** One piece of the file: up to and with the first line feed, 255 characters at
      most. */
  function FirstPiece(text: string): (r: nat)
    requires text != ""
    ensures 0 < r <= |text| && r <= LINE_LIMIT && '\n' !in text[..r - 1]
  {
    var lf := Until(text, 0, IsLineFeed);
    var n := if lf < |text| then lf + 1 else lf;
    if n <= LINE_LIMIT then n else LINE_LIMIT
  }

  /** The end of the text before `i`, not before `from`, without trailing spaces. */
  function WithoutTrailingSpace(s: string, from: nat, i: nat): (r: nat)
    requires from <= i <= |s|
    ensures from <= r <= i && (r > from ==> !IsSpace(s[r - 1]))
    ensures forall j | r <= j < i :: IsSpace(s[j])
  {
    if i > from && IsSpace(s[i - 1]) then WithoutTrailingSpace(s, from, i - 1) else i
  }

  function ParseLine(line: string): Entry {
    var name := Until(line, 0, NotSpace);
    var nameEnd := Until(line, name, IsSpace);
    var from := if nameEnd < |line| then nameEnd + 1 else nameEnd;
    var value := Until(line, from, NoSeparator);
    var end := WithoutTrailingSpace(line, value, |line|);
    Entry(line[name..nameEnd], line[value..end])
  }

  /** What `insertEntry` makes of the first piece. */
  function FirstEntry(text: string): Entry
    requires text != ""
  {
    ParseLine(CString(text[..FirstPiece(text)]))
  }

  function Rest(text: string): (r: string)
    requires text != ""
    ensures |r| < |text| && |r| == |text| - FirstPiece(text)
  {
    text[FirstPiece(text)..]
  }

  function Pieces(text: string): seq<Entry>
    decreases |text|
  {
    if text == "" then [] else [FirstEntry(text)] + Pieces(Rest(text))
  }

  /** Loading adds to the database and replaces values; it never removes any. */
  function LoadText(db: seq<Entry>, text: string): seq<Entry> {
    SetAll(db, Pieces(text))
  }

  // ----- What a line gives back ----------------------------------------------

  /** What is left of a value that was written and read: the separators in front
      of it and the white space behind it are gone. */
  function Kept(v: string): string {
    var from := Until(v, 0, NoSeparator);
    v[from..WithoutTrailingSpace(v, from, |v|)]
  }

  /** Only separators in front and white space behind are lost. */
  lemma KeptIsInside(v: string) returns (front: string, back: string)
    ensures v == front + Kept(v) + back && AllSpace(back)
    ensures forall c | c in front :: !NoSeparator(c)
  {
    hide Until, WithoutTrailingSpace;
    var i := Until(v, 0, NoSeparator);
    var j := WithoutTrailingSpace(v, i, |v|);
    front, back := v[..i], v[j..];
    forall c | c in front ensures !NoSeparator(c) {
      var k :| 0 <= k < i && front[k] == c;
      assert v[k] == c;
    }
    forall k | 0 <= k < |back| ensures IsSpace(back[k]) {
      assert back[k] == v[j + k];
    }
  }

  /** A value that is kept as it is. */
  predicate Tidy(v: string) {
    v != "" ==> NoSeparator(v[0]) && !IsSpace(v[|v| - 1])
  }

  lemma KeptIsTidy(v: string)
    ensures Tidy(Kept(v)) && |Kept(v)| <= |v|
    ensures Kept(v) == v <==> Tidy(v)
  {
  }

  lemma UntilIs(s: string, i: nat, stop: char -> bool, r: nat)
    requires i <= r <= |s| && (r < |s| ==> stop(s[r])) && forall j | i <= j < r :: !stop(s[j])
    ensures Until(s, i, stop) == r
  {
  }

  lemma EndIs(s: string, from: nat, i: nat, r: nat)
    requires from <= r <= i <= |s| && (r > from ==> !IsSpace(s[r - 1]))
    requires forall j | r <= j < i :: IsSpace(s[j])
    ensures WithoutTrailingSpace(s, from, i) == r
  {
  }

  predicate AllSpace(s: string) {
    forall i | 0 <= i < |s| :: IsSpace(s[i])
  }

  lemma UntilBefore(v: string, space: string)
    requires AllSpace(space)
    ensures Until(v + space, 0, NoSeparator) ==
            var i := Until(v, 0, NoSeparator); if i < |v| then i else |v + space|
  {
    var s, i := v + space, Until(v, 0, NoSeparator);
    forall k | |v| <= k < |s| ensures !NoSeparator(s[k]) {
      assert s[k] == space[k - |v|];
    }
    assert forall k | 0 <= k < |v| :: s[k] == v[k];
    hide Until, NoSeparator;
    UntilIs(s, 0, NoSeparator, if i < |v| then i else |s|);
  }

  lemma EndBefore(v: string, space: string, from: nat)
    requires AllSpace(space) && from <= |v|
    ensures WithoutTrailingSpace(v + space, from, |v + space|) == WithoutTrailingSpace(v, from, |v|)
  {
    var s, j := v + space, WithoutTrailingSpace(v, from, |v|);
    forall k | |v| <= k < |s| ensures IsSpace(s[k]) {
      assert s[k] == space[k - |v|];
    }
    assert forall k | 0 <= k < |v| :: s[k] == v[k];
    hide WithoutTrailingSpace, IsSpace;
    EndIs(s, from, |s|, j);
  }

  /** White space behind a value does not matter. */
  lemma KeptBefore(v: string, space: string)
    requires AllSpace(space)
    ensures Kept(v + space) == Kept(v)
  {
    hide Until, WithoutTrailingSpace, AllSpace;
    UntilBefore(v, space);
    var i := Until(v, 0, NoSeparator);
    if i < |v| {
      EndBefore(v, space, i);
      var j := WithoutTrailingSpace(v, i, |v|);
      assert (v + space)[i..j] == v[i..j];
    }
  }

  lemma LineEndIsSpace()
    ensures AllSpace("\r\n")
  {
  }

  predicate IsName(k: string) {
    k != "" && '\0' !in k && forall c | c in k :: !IsSpace(c)
  }

  lemma KeyIsRead(k: string, rest: string)
    requires IsName(k) && (rest != "" ==> IsSpace(rest[0]))
    ensures var line := k + rest;
            Until(line, 0, NotSpace) == 0 && Until(line, 0, IsSpace) == |k| && line[..|k|] == k
  {
    var line := k + rest;
    assert line[0] == k[0] && (rest != "" ==> line[|k|] == rest[0]);
    UntilIs(line, 0, NotSpace, 0);
    forall j | 0 <= j < |k| ensures !IsSpace(line[j]) {
      assert line[j] in k;
    }
    UntilIs(line, 0, IsSpace, |k|);
  }

  lemma ValueIsRead(a: string, w: string)
    ensures var from := Until(a + w, |a|, NoSeparator);
            (a + w)[from..WithoutTrailingSpace(a + w, from, |a + w|)] == Kept(w)
  {
    hide Until, WithoutTrailingSpace;
    var line, from := a + w, Until(w, 0, NoSeparator);
    var end := WithoutTrailingSpace(w, from, |w|);
    UntilBehind(a, w);
    EndBehind(a, w, from);
    hide *;
    assert line[|a| + from..|a| + end] == w[from..end];
  }

  lemma UntilBehind(a: string, w: string)
    ensures Until(a + w, |a|, NoSeparator) == |a| + Until(w, 0, NoSeparator)
  {
    hide Until;
    var line, from := a + w, Until(w, 0, NoSeparator);
    forall j | |a| <= j < |line| ensures line[j] == w[j - |a|] {
    }
    UntilIs(line, |a|, NoSeparator, |a| + from);
  }

  lemma EndBehind(a: string, w: string, from: nat)
    requires from <= |w|
    ensures WithoutTrailingSpace(a + w, |a| + from, |a + w|) == |a| + WithoutTrailingSpace(w, from, |w|)
  {
    hide WithoutTrailingSpace;
    var line, end := a + w, WithoutTrailingSpace(w, from, |w|);
    forall j | |a| <= j < |line| ensures line[j] == w[j - |a|] {
    }
    EndIs(line, |a| + from, |line|, |a| + end);
  }

  lemma SkipsToKey(space: string, k: string, rest: string)
    requires AllSpace(space) && IsName(k) && rest != "" && IsSpace(rest[0])
    ensures var s, n := space + (k + rest), |space|;
            Until(s, 0, NotSpace) == n && Until(s, n, IsSpace) == n + |k|
  {
    var s, n := space + (k + rest), |space|;
    forall i | 0 <= i < n ensures IsSpace(s[i]) {
      assert s[i] == space[i];
    }
    forall i | n <= i < n + |k| ensures !IsSpace(s[i]) {
      assert s[i] == k[i - n];
      assert s[i] in k;
    }
    assert s[n + |k|] == rest[0];
    hide Until, IsSpace, AllSpace, IsName;
    UntilIs(s, 0, NotSpace, n);
    UntilIs(s, n, IsSpace, n + |k|);
  }

  /** White space in front of a line does not matter. */
  lemma LeadingSpaceIsSkipped(space: string, k: string, w: string)
    requires AllSpace(space) && IsName(k)
    ensures ParseLine(space + (k + " " + w)) == ParseLine(k + " " + w)
  {
    hide *;
    var s := space + (k + " " + w);
    ParsesLine(k, w);
    SpacedKey(space, k, w);
    SpacedRest(space, k, w, s, |space| + |k|);
    ParsesBy(s, |space|, |space| + |k|);
  }

  lemma SpacedKey(space: string, k: string, w: string)
    requires AllSpace(space) && IsName(k)
    ensures var s, n := space + (k + " " + w), |space|;
            Until(s, 0, NotSpace) == n && Until(s, n, IsSpace) == n + |k| && n + |k| < |s|
  {
    hide Until, AllSpace, IsName;
    assert k + " " + w == k + (" " + w) && (" " + w)[0] == ' ';
    SkipsToKey(space, k, " " + w);
  }

  lemma ParsesBy(line: string, name: nat, nameEnd: nat)
    requires Until(line, 0, NotSpace) == name && Until(line, name, IsSpace) == nameEnd < |line|
    ensures ParseLine(line) ==
            var value := Until(line, nameEnd + 1, NoSeparator);
            Entry(line[name..nameEnd], line[value..WithoutTrailingSpace(line, value, |line|)])
  {
    hide Until, WithoutTrailingSpace;
  }

  lemma SpacedRest(space: string, k: string, w: string, s: string, nameEnd: nat)
    requires s == space + (k + " " + w) && nameEnd == |space| + |k|
    ensures s[|space|..nameEnd] == k
    ensures var value := Until(s, nameEnd + 1, NoSeparator);
            s[value..WithoutTrailingSpace(s, value, |s|)] == Kept(w)
  {
    hide *;
    SpacedParts(space, k, w);
    ValueIsRead(space + k + " ", w);
  }

  lemma SpacedParts(space: string, k: string, w: string)
    ensures space + (k + " " + w) == (space + k + " ") + w && |space + k + " "| == |space| + |k| + 1
    ensures (space + (k + " " + w))[|space|..|space| + |k|] == k
  {
  }

  /** A piece that starts with a key reads as that key. */
  lemma ParsesKey(k: string, rest: string)
    requires IsName(k) && (rest != "" ==> IsSpace(rest[0]))
    ensures ParseLine(k + rest).key == k
  {
    KeyIsRead(k, rest);
    hide Until, WithoutTrailingSpace, IsSpace;
  }

  /** White space ends the key; what follows it, tidied, is the value. */
  lemma ParsesLine(k: string, w: string)
    requires IsName(k)
    ensures ParseLine(k + " " + w) == Entry(k, Kept(w))
  {
    hide Until, WithoutTrailingSpace, Kept;
    assert k + " " + w == k + (" " + w) && (" " + w)[0] == ' ' && |k + " "| == |k| + 1;
    KeyIsRead(k, " " + w);
    ValueIsRead(k + " ", w);
  }

  lemma KeptBehind(w: string)
    ensures Kept(": " + w) == Kept(w)
  {
    hide Until, WithoutTrailingSpace;
    var s, from := ": " + w, Until(w, 0, NoSeparator);
    ColonIsSkipped(w);
    EndBehind(": ", w, from);
    var end := WithoutTrailingSpace(w, from, |w|);
    assert s[from + 2..end + 2] == w[from..end];
  }

  lemma ColonIsSkipped(w: string)
    ensures Until(": " + w, 0, NoSeparator) == 2 + Until(w, 0, NoSeparator)
  {
    var s, from := ": " + w, Until(w, 0, NoSeparator);
    assert s[0] == ':' && s[1] == ' ' && forall j | 2 <= j < |s| :: s[j] == w[j - 2];
    hide Until;
    UntilIs(s, 0, NoSeparator, from + 2);
  }

  /** A written line, or a first piece of one, reads as its key and the rest, tidied. */
  lemma ParsesStart(k: string, w: string)
    requires IsName(k)
    ensures ParseLine(k + " : " + w) == Entry(k, Kept(w))
  {
    hide *;
    assert k + " : " + w == k + " " + (": " + w);
    ParsesLine(k, ": " + w);
    KeptBehind(w);
  }

  // ----- What a file gives back ----------------------------------------------

  predicate IsLine(line: string) {
    line != "" && line[|line| - 1] == '\n' && '\n' !in line[..|line| - 1]
  }

  lemma PieceOfLine(line: string, rest: string)
    requires IsLine(line)
    ensures FirstPiece(line + rest) == if |line| <= LINE_LIMIT then |line| else LINE_LIMIT
  {
    var text, lf := line + rest, |line| - 1;
    forall j | 0 <= j < lf ensures !IsLineFeed(text[j]) {
      assert text[j] == line[..lf][j];
    }
    UntilIs(text, 0, IsLineFeed, lf);
  }

  lemma FirstOfLine(line: string, rest: string)
    requires IsLine(line)
    ensures FirstEntry(line + rest) == FirstEntry(line) && Rest(line + rest) == Rest(line) + rest
    ensures Rest(line) == "" || IsLine(Rest(line))
  {
    PieceOfLine(line, rest);
    PieceOfLine(line, "");
    assert line + "" == line;
    var n := FirstPiece(line);
    hide *;
    CutJoin(line, rest, n);
    FirstEntryIs(line);
    FirstEntryIs(line + rest);
    if n < |line| {
      TailIsLine(line, n);
    }
  }

  lemma CutJoin(a: string, b: string, n: nat)
    requires n <= |a|
    ensures (a + b)[..n] == a[..n] && (a + b)[n..] == a[n..] + b
  {
  }

  lemma FirstEntryIs(text: string)
    requires text != ""
    ensures FirstEntry(text) == ParseLine(CString(text[..FirstPiece(text)])) && Rest(text) == text[FirstPiece(text)..]
  {
  }

  lemma TailIsLine(line: string, n: nat)
    requires IsLine(line) && n < |line|
    ensures IsLine(line[n..])
  {
    assert line[n..][..|line| - n - 1] == line[..|line| - 1][n..];
  }

  /** Each line is read by itself, whatever follows it. */
  lemma {:induction false} PiecesOfBoth(line: string, rest: string)
    requires IsLine(line)
    ensures Pieces(line + rest) == Pieces(line) + Pieces(rest)
    decreases |line|
  {
    PiecesUnfold(line);
    PiecesUnfold(line + rest);
    FirstOfLine(line, rest);
    assert Rest(line) == "" ==> Rest(line) + rest == rest && Pieces(Rest(line)) == [];
    assert line != "";
    hide *;
    if Rest(line) != "" {
      PiecesOfBoth(Rest(line), rest);
    }
    Regroup([FirstEntry(line)], Pieces(Rest(line)), Pieces(rest));
  }

  lemma PiecesUnfold(text: string)
    requires text != ""
    ensures Pieces(text) == [FirstEntry(text)] + Pieces(Rest(text))
  {
  }

  lemma Regroup(a: seq<Entry>, b: seq<Entry>, c: seq<Entry>)
    ensures a + (b + c) == a + b + c && [] + c == c
  {
  }

  lemma NameIsWritten(k: string)
    requires IsName(k)
    ensures CString(Without(k, '\r')) == k && Plain(k)
  {
    assert IsSpace('\r') && IsSpace('\n');
  }

  lemma EndsLine(body: string)
    requires Plain(body)
    ensures IsLine(body + "\r\n") && '\0' !in body + "\r\n"
  {
    var line := body + "\r\n";
    assert line[..|line| - 1] == body + "\r";
  }

  /** The line of an entry: its key, three characters, its value, two more. */
  lemma LineOf(e: Entry)
    requires IsName(e.key)
    ensures StoredLine(e) == e.key + " : " + Written(e.value) + "\r\n"
    ensures IsLine(StoredLine(e)) && '\0' !in StoredLine(e)
  {
    NameIsWritten(e.key);
    hide Written, Without, CString, IsName, IsLine;
    EndsLine(e.key + " : " + Written(e.value));
  }

  /** The line fits into one piece, but perhaps for the two characters at its end. */
  predicate Fits(e: Entry) {
    IsName(e.key) && |e.key| + 3 + |Written(e.value)| <= LINE_LIMIT
  }

  function KeptEntry(e: Entry): Entry {
    Entry(e.key, Kept(Written(e.value)))
  }

  lemma BlankPieces(text: string)
    requires text == "" || text == "\n" || text == "\r\n"
    ensures forall x | x in Pieces(text) :: x.key == ""
  {
    if text != "" {
      assert text + "" == text;
      PieceOfLine(text, "");
      assert CString(text) == text && text[|text|..] == "";
      UntilIs(text, 0, NotSpace, |text|);
    }
  }

  lemma CutBehind(a: string, b: string, t: string, j: nat)
    requires j <= |t|
    ensures (a + b + t)[..|a + b| + j] == a + (b + t[..j]) && (a + b + t)[|a + b| + j..] == t[j..]
  {
  }

  lemma BlankTails(j: nat)
    requires j <= 2
    ensures var t := "\r\n";
            AllSpace(t[..j]) && (t[j..] == "" || t[j..] == "\n" || t[j..] == "\r\n")
  {
  }

  lemma FirstPieceOf(e: Entry)
    requires Fits(e)
    ensures var line := StoredLine(e);
            FirstEntry(line) == KeptEntry(e) && (Rest(line) == "" || Rest(line) == "\n" || Rest(line) == "\r\n")
  {
    LineOf(e);
    var a, v, line := e.key + " : ", Written(e.value), StoredLine(e);
    assert line + "" == line;
    PieceOfLine(line, "");
    var n := FirstPiece(line);
    var j := n - |a + v|;
    assert '\0' !in line[..n];
    assert FirstEntry(line) == ParseLine(line[..n]) && Rest(line) == line[n..];
    hide *;
    CutBehind(a, v, "\r\n", j);
    BlankTails(j);
    ParsesStart(e.key, v + "\r\n"[..j]);
    KeptBefore(v, "\r\n"[..j]);
    KeptEntryIs(e);
  }

  lemma KeptEntryIs(e: Entry)
    ensures KeptEntry(e) == Entry(e.key, Kept(Written(e.value)))
  {
  }

  /** A line that fits sets its key to what is kept of its value. */
  lemma EntryIsRead(e: Entry, key: string)
    requires Fits(e) && key != ""
    ensures Latest(Pieces(StoredLine(e)), key) == if e.key == key then Some(Kept(Written(e.value))) else None
  {
    FirstPieceOf(e);
    KeptEntryIs(e);
    LineOf(e);
    var line := StoredLine(e);
    hide StoredLine, FirstEntry, Rest, KeptEntry, Fits, Kept, Written, Latest;
    BlankPieces(Rest(line));
    LatestOfBoth([KeptEntry(e)], Pieces(Rest(line)), key);
    LatestOfOne(KeptEntry(e), key);
  }

  lemma LatestOfOne(e: Entry, key: string)
    ensures Latest([e], key) == if e.key == key then Some(e.value) else None
  {
  }

  /** Reading the line of an entry gives this key no value. */
  predicate Spares(e: Entry, key: string) {
    Latest(Pieces(StoredLine(e)), key).None?
  }

  /** A stored file sets a key to what is kept of its value, if the line of the key
      fits and no other line spills over into it. */
  lemma {:induction false} FileGivesBack(entries: seq<Entry>, key: string)
    requires key != "" && forall e | e in entries :: IsName(e.key)
    requires forall e | e in entries :: if e.key == key then Fits(e) else Spares(e, key)
    ensures Latest(Pieces(StoreText(entries)), key) ==
            var v := Latest(entries, key); if v.None? then None else Some(Kept(Written(v.value)))
    decreases |entries|
  {
    if entries != [] {
      var e, later := entries[0], entries[1..];
      assert e in entries;
      LineOf(e);
      hide Fits, StoredLine, IsName, IsLine, Kept, Written, Pieces;
      PiecesOfBoth(StoredLine(e), StoreText(later));
      LatestOfBoth(Pieces(StoredLine(e)), Pieces(StoreText(later)), key);
      if e.key == key {
        EntryIsRead(e, key);
      }
      FileGivesBack(later, key);
    }
  }

  /** Every piece of a file belongs to the line of some entry. */
  lemma {:induction false} PiecesOfFile(entries: seq<Entry>, x: Entry) returns (e: Entry)
    requires (forall e | e in entries :: IsName(e.key)) && x in Pieces(StoreText(entries))
    ensures e in entries && x in Pieces(StoredLine(e))
    decreases |entries|
  {
    assert Pieces("") == [];
    e := entries[0];
    assert e in entries;
    LineOf(e);
    hide StoredLine, IsName, IsLine, Pieces;
    PiecesOfBoth(StoredLine(e), StoreText(entries[1..]));
    if x !in Pieces(StoredLine(e)) {
      e := PiecesOfFile(entries[1..], x);
    }
  }

  /** Keys without white space; values that neither start with a separator nor end
      with a space, short enough to fit on their line. */
  predicate Storable(e: Entry) {
    Fits(e) && Plain(e.value) && Tidy(e.value)
  }

  /** Storable entries come back exactly as they were: loading their file does what
      setting them would do. */
  lemma FileRoundTrip(db: seq<Entry>, entries: seq<Entry>, key: string)
    requires (forall e | e in entries :: Storable(e)) && key != ""
    ensures Seen(LoadText(db, StoreText(entries)), key) == Seen(SetAll(db, entries), key)
  {
    hide Kept, Written, StoreText, Seen, SetAll, Pieces, Latest, StoredLine;
    forall e | e in entries ensures if e.key == key then Fits(e) else Spares(e, key) {
      EntryIsRead(e, key);
    }
    FileGivesBack(entries, key);
    SeenAfterSetAll(db, entries, key);
    SeenAfterSetAll(db, Pieces(StoreText(entries)), key);
    if Latest(entries, key).Some? {
      var v := Latest(entries, key).value;
      assert Storable(Entry(key, v));
      KeptIsTidy(v);
    }
  }

  // ----- What no file gives back ---------------------------------------------

  /** What a parsed line can be, whatever the file holds. */
  ghost predicate Legible(e: Entry) {
    && (e.key == "" || IsName(e.key)) && |e.key| <= LINE_LIMIT
    && Plain(e.value) && Tidy(e.value) && (e.value != "" ==> |e.key| + 1 + |e.value| <= LINE_LIMIT)
  }

  lemma ValueInLine(line: string) returns (i: nat, j: nat)
    ensures i <= j <= |line| && ParseLine(line).value == line[i..j]
    ensures i < j ==> NoSeparator(line[i]) && !IsSpace(line[j - 1]) && |ParseLine(line).key| + 1 <= i
  {
    hide Until, WithoutTrailingSpace, IsSpace, NoSeparator;
    var name := Until(line, 0, NotSpace);
    var nameEnd := Until(line, name, IsSpace);
    i := Until(line, if nameEnd < |line| then nameEnd + 1 else nameEnd, NoSeparator);
    j := WithoutTrailingSpace(line, i, |line|);
  }

  lemma KeyInLine(line: string)
    requires '\0' !in line
    ensures var k := ParseLine(line).key; (k == "" || IsName(k)) && |k| <= |line|
  {
    hide Until, WithoutTrailingSpace, NoSeparator;
  }

  lemma SliceIsPlain(line: string, i: nat, j: nat)
    requires i < j <= |line| && line[j - 1] != '\n' && '\0' !in line && '\n' !in line[..|line| - 1]
    ensures Plain(line[i..j])
  {
    forall k | i <= k < j ensures line[k] != '\n' && line[k] != '\0' {
      assert k < |line| - 1 ==> line[..|line| - 1][k] == line[k];
    }
  }

  lemma ParsedIsLegible(line: string)
    requires line != "" && |line| <= LINE_LIMIT && '\0' !in line && '\n' !in line[..|line| - 1]
    ensures Legible(ParseLine(line))
  {
    KeyInLine(line);
    hide ParseLine, IsName;
    var i, j := ValueInLine(line);
    if i < j {
      SliceIsPlain(line, i, j);
      hide Plain;
      assert line[i..j][0] == line[i] && line[i..j][j - i - 1] == line[j - 1];
    }
  }

  lemma {:induction false} PiecesAreLegible(text: string)
    ensures forall e | e in Pieces(text) :: Legible(e)
    decreases |text|
  {
    if text != "" {
      FirstIsLegible(text);
      hide Legible, FirstEntry, Rest;
      PiecesAreLegible(Rest(text));
    }
  }

  lemma FirstIsLegible(text: string)
    requires text != ""
    ensures Legible(FirstEntry(text))
  {
    var n := FirstPiece(text);
    var line := CString(text[..n]);
    hide Legible, FirstPiece, ParseLine, CString;
    if line == "" {
      BlankIsLegible();
    } else {
      PrefixHasNoLineFeed(text[..n], line);
      ParsedIsLegible(line);
    }
  }

  lemma BlankIsLegible()
    ensures Legible(ParseLine(""))
  {
  }

  lemma PrefixHasNoLineFeed(piece: string, line: string)
    requires line <= piece && line != "" && '\n' !in piece[..|piece| - 1]
    ensures '\n' !in line[..|line| - 1]
  {
    forall j | 0 <= j < |line| - 1 ensures line[j] != '\n' {
      assert piece[..|piece| - 1][j] == line[j];
    }
  }

  // ----- Lines that are hardly too long --------------------------------------

  lemma {:induction false} PiecesAreShort(text: string)
    ensures forall e | e in Pieces(text) :: |e.key| <= |text|
    decreases |text|
  {
    if text != "" {
      assert |FirstEntry(text).key| <= |text| by {
        hide Until, FirstPiece;
      }
      hide FirstEntry, Rest;
      PiecesAreShort(Rest(text));
    }
  }

  /** The first piece of a line gives its key, and leaves that much room for the
      value. */
  lemma FirstPieceIsShort(e: Entry)
    requires IsName(e.key) && |e.key| <= LINE_LIMIT
    ensures var line := StoredLine(e);
            var first := FirstEntry(line);
            && |Rest(line)| == (if |line| <= LINE_LIMIT then 0 else |line| - LINE_LIMIT)
            && first.key == e.key
            && (|e.key| + 3 <= LINE_LIMIT ==> |e.key| + 3 + |first.value| <= LINE_LIMIT)
  {
    LineOf(e);
    var k, line, w := e.key, StoredLine(e), Written(e.value) + "\r\n";
    KeyLeads(e);
    assert line + "" == line;
    PieceOfLine(line, "");
    var n := FirstPiece(line);
    hide *;
    FirstIsParsed(line, n);
    ShortPiece(k, w, n);
  }

  lemma KeyLeads(e: Entry)
    requires IsName(e.key)
    ensures StoredLine(e) == e.key + " : " + (Written(e.value) + "\r\n")
  {
    LineOf(e);
    hide *;
  }

  lemma FirstIsParsed(text: string, n: nat)
    requires text != "" && FirstPiece(text) == n && '\0' !in text
    ensures FirstEntry(text) == ParseLine(text[..n]) && |Rest(text)| == |text| - n
  {
    hide FirstPiece, ParseLine;
    assert '\0' !in text[..n];
  }

  lemma ShortPiece(k: string, w: string, n: nat)
    requires IsName(k) && |k| <= n <= |k + " : " + w|
    ensures var first := ParseLine((k + " : " + w)[..n]);
            first.key == k && (|k| + 3 <= n ==> |k| + 3 + |first.value| <= n)
  {
    hide ParseLine, Kept, IsName;
    var line := k + " : " + w;
    var piece := line[..n];
    if |k| + 3 <= n {
      assert piece == k + " : " + w[..n - |k| - 3];
      ParsesStart(k, w[..n - |k| - 3]);
      KeptIsTidy(w[..n - |k| - 3]);
    } else {
      assert piece == k + " : "[..n - |k|];
      ParsesKey(k, " : "[..n - |k|]);
    }
  }

  /** What a line that exceeds one piece by a few characters is read as: its key,
      with a value that fits, and keys of at most those few characters. */
  lemma LineIsShort(e: Entry)
    requires IsName(e.key) && |e.key| <= LINE_LIMIT && |StoredLine(e)| <= LINE_LIMIT + 5
    ensures forall x | x in Pieces(StoredLine(e)) ::
              |x.key| <= 5 || (x.key == e.key && (|e.key| + 3 <= LINE_LIMIT ==> |e.key| + 3 + |x.value| <= LINE_LIMIT))
  {
    FirstPieceIsShort(e);
    var line := StoredLine(e);
    hide StoredLine, FirstEntry, Rest, IsName;
    PiecesAreShort(Rest(line));
  }

  // ----- Lines that spill ----------------------------------------------------

  lemma OnePiece(line: string)
    requires IsLine(line) && |line| <= LINE_LIMIT && '\0' !in line
    ensures Pieces(line) == [ParseLine(line)]
  {
    assert line + "" == line && line[..|line|] == line && line[|line|..] == "";
    PieceOfLine(line, "");
    PiecesUnfold(line);
    FirstEntryIs(line);
    assert CString(line) == line && Pieces("") == [];
  }

  /** Any text of a key, white space and a value reads like a stored line. */
  lemma LooksLikeEntry(k: string, w: string)
    requires IsName(k) && Plain(k) && Plain(w) && |k| + |w| + 3 <= LINE_LIMIT
    ensures Pieces(k + " " + w + "\r\n") == [Entry(k, Kept(w))]
  {
    var line := k + " " + w + "\r\n";
    EndsSpacedLine(k, w);
    LineEndIsSpace();
    hide *;
    OnePiece(line);
    JoinThree(k + " ", w, "\r\n");
    ParsesLine(k, w + "\r\n");
    KeptBefore(w, "\r\n");
  }

  lemma EndsSpacedLine(k: string, w: string)
    requires Plain(k) && Plain(w)
    ensures IsLine(k + " " + w + "\r\n") && '\0' !in k + " " + w + "\r\n"
  {
    var body := k + " " + w;
    assert Plain(body);
    hide *;
    EndsLine(body);
  }

  lemma RestIs(front: string, tail: string)
    requires |front| == LINE_LIMIT && IsLine(front + tail) && tail != ""
    ensures Rest(front + tail) == tail
  {
    assert front + tail + "" == front + tail;
    PieceOfLine(front + tail, "");
    FirstEntryIs(front + tail);
    hide *;
    assert (front + tail)[LINE_LIMIT..] == tail;
  }

  /** The part of a value that exceeds the first piece is read as a line of its own. */
  lemma Spills(k: string, v: string, more: string)
    requires IsName(k) && Plain(v) && Plain(more) && |k| + 3 + |v| == LINE_LIMIT
    ensures var es := Pieces(StoredLine(Entry(k, v + more)));
            es != [] && es[0].key == k && es[1..] == Pieces(more + "\r\n")
  {
    var e := Entry(k, v + more);
    var line := StoredLine(e);
    PlainIsWritten(v + more);
    LineOf(e);
    FirstPieceIsShort(e);
    hide *;
    JoinFour(k + " : ", v, more, "\r\n");
    RestIs(k + " : " + v, more + "\r\n");
    PiecesUnfold(line);
  }

  lemma JoinFour(a: string, b: string, c: string, d: string)
    ensures a + (b + c) + d == (a + b) + (c + d)
  {
  }

  lemma PlainIsWritten(v: string)
    requires Plain(v)
    ensures Written(v) == v
  {
  }
}
