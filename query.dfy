/** What the document-store queries over the Application collection compute:
    owner and status matches, `sort` on one key in either direction, and the
    `$group` by status that the progress handlers fold into a status table. */
module Query {
  import opened Wrappers
  import opened Seqs
  import opened ApplicationSchema
  import Text

  /** The match `{ user: userId }`. */
  function OwnerIs(user: UserId): Application -> bool {
    (a: Application) => a.user == user
  }

  /** The match `{ status: name }` (string equality with the stored status). */
  function StatusIs(name: string): Application -> bool {
    (a: Application) => a.status == name
  }

  /** The caller's records, in store order. */
  function OwnedBy(apps: seq<Application>, user: UserId): (r: seq<Application>)
    ensures forall a :: a in r <==> a in apps && a.user == user
    ensures |r| <= |apps|
  {
    Filter(apps, OwnerIs(user))
  }

  /** The number of records whose stored status is `name`. */
  function CountStatus(apps: seq<Application>, name: string): (n: nat)
    ensures n <= |apps|
    ensures n == 0 <==> forall a :: a in apps ==> a.status != name
  {
    if apps == [] then 0
    else
      var init, last := apps[..|apps| - 1], apps[|apps| - 1];
      assert forall a :: a in apps <==> a in init || a == last by {
        assert apps == init + [last];
      }
      CountStatus(init, name) + (if last.status == name then 1 else 0)
  }

  /** The count is the number of records the match `{ status: name }` keeps. */
  lemma {:induction false} CountStatusMatches(apps: seq<Application>, name: string)
    ensures CountStatus(apps, name) == Count(apps, StatusIs(name))
  {
    if apps != [] {
      CountStatusMatches(apps[..|apps| - 1], name);
      CountLast(apps, StatusIs(name));
    }
  }

  // ---------------------------------------------------------------- sorting

  /** The record fields a query sorts on. */
  datatype SortField = ByDateApplied | ByCompany | ByStatus | ByCreatedAt | ByUpdatedAt

  /** A sort key; numbers order before strings, as in the store's comparison order. */
  datatype SortKey = IntKey(n: int) | StrKey(s: string)

  function KeyOf(a: Application, f: SortField): SortKey {
    match f
    case ByDateApplied => IntKey(a.dateApplied)
    case ByCompany => StrKey(a.company)
    case ByStatus => StrKey(a.status)
    case ByCreatedAt => IntKey(a.createdAt)
    case ByUpdatedAt => IntKey(a.updatedAt)
  }

  /** Lexicographic order on character codes (the store's binary string comparison). */
  predicate StrLeq(x: string, y: string) {
    x == [] || (y != [] && (x[0] < y[0] || (x[0] == y[0] && StrLeq(x[1..], y[1..]))))
  }

  lemma {:induction false} StrLeqTotal(x: string, y: string)
    ensures StrLeq(x, y) || StrLeq(y, x)
  {
    if x != [] && y != [] && x[0] == y[0] {
      StrLeqTotal(x[1..], y[1..]);
    }
  }

  lemma {:induction false} StrLeqTransitive(x: string, y: string, z: string)
    requires StrLeq(x, y) && StrLeq(y, z)
    ensures StrLeq(x, z)
  {
    if x != [] && x[0] == y[0] && y[0] == z[0] {
      StrLeqTransitive(x[1..], y[1..], z[1..]);
    }
  }

  predicate KeyLeq(x: SortKey, y: SortKey) {
    match (x, y)
    case (IntKey(m), IntKey(n)) => m <= n
    case (StrKey(s), StrKey(t)) => StrLeq(s, t)
    case (IntKey(_), StrKey(_)) => true
    case (StrKey(_), IntKey(_)) => false
  }

  lemma KeyLeqTotal(x: SortKey, y: SortKey)
    ensures KeyLeq(x, y) || KeyLeq(y, x)
  {
    if x.StrKey? && y.StrKey? {
      StrLeqTotal(x.s, y.s);
    }
  }

  lemma KeyLeqTransitive(x: SortKey, y: SortKey, z: SortKey)
    requires KeyLeq(x, y) && KeyLeq(y, z)
    ensures KeyLeq(x, z)
  {
    if x.StrKey? && y.StrKey? && z.StrKey? {
      StrLeqTransitive(x.s, y.s, z.s);
    }
  }

  /** `a` may come before `b` in a sort on `f`, ascending when `asc`. */
  predicate Precedes(a: Application, b: Application, f: SortField, asc: bool) {
    if asc then KeyLeq(KeyOf(a, f), KeyOf(b, f)) else KeyLeq(KeyOf(b, f), KeyOf(a, f))
  }

  lemma PrecedesTotal(a: Application, b: Application, f: SortField, asc: bool)
    ensures Precedes(a, b, f, asc) || Precedes(b, a, f, asc)
  {
    KeyLeqTotal(KeyOf(a, f), KeyOf(b, f));
  }

  lemma PrecedesTransitive(a: Application, b: Application, c: Application, f: SortField, asc: bool)
    requires Precedes(a, b, f, asc) && Precedes(b, c, f, asc)
    ensures Precedes(a, c, f, asc)
  {
    if asc {
      KeyLeqTransitive(KeyOf(a, f), KeyOf(b, f), KeyOf(c, f));
    } else {
      KeyLeqTransitive(KeyOf(c, f), KeyOf(b, f), KeyOf(a, f));
    }
  }

  predicate SortedBy(s: seq<Application>, f: SortField, asc: bool) {
    forall i, j :: 0 <= i < j < |s| ==> Precedes(s[i], s[j], f, asc)
  }

  /** Puts `x` before the first element it may precede. */
  function Insert(x: Application, s: seq<Application>, f: SortField, asc: bool): seq<Application> {
    if s == [] || Precedes(x, s[0], f, asc) then [x] + s else [s[0]] + Insert(x, s[1..], f, asc)
  }

  lemma {:induction false} InsertPermutes(x: Application, s: seq<Application>, f: SortField, asc: bool)
    ensures multiset(Insert(x, s, f, asc)) == multiset(s) + multiset{x}
  {
    if s != [] && !Precedes(x, s[0], f, asc) {
      InsertPermutes(x, s[1..], f, asc);
      assert s == [s[0]] + s[1..];
    }
  }

  lemma {:induction false} InsertMembers(x: Application, s: seq<Application>, f: SortField, asc: bool)
    ensures forall y :: y in Insert(x, s, f, asc) ==> y == x || y in s
  {
    if s != [] && !Precedes(x, s[0], f, asc) {
      InsertMembers(x, s[1..], f, asc);
      assert forall y :: y in s[1..] ==> y in s;
    }
  }

  lemma {:induction false} InsertSorted(x: Application, s: seq<Application>, f: SortField, asc: bool)
    requires SortedBy(s, f, asc)
    ensures SortedBy(Insert(x, s, f, asc), f, asc)
  {
    if s == [] {
    } else if Precedes(x, s[0], f, asc) {
      forall j | 0 <= j < |s|
        ensures Precedes(x, s[j], f, asc)
      {
        if j > 0 {
          PrecedesTransitive(x, s[0], s[j], f, asc);
        }
      }
    } else {
      var t := Insert(x, s[1..], f, asc);
      InsertSorted(x, s[1..], f, asc);
      InsertMembers(x, s[1..], f, asc);
      PrecedesTotal(x, s[0], f, asc);
      forall j | 0 <= j < |t|
        ensures Precedes(s[0], t[j], f, asc)
      {
        if t[j] != x {
          assert t[j] in t;
          var m :| 0 <= m < |s| - 1 && s[1..][m] == t[j];
          assert s[m + 1] == t[j];
        }
      }
      assert Insert(x, s, f, asc) == [s[0]] + t;
    }
  }

  /** A stable insertion sort: the records ordered on `f`, ties kept in store
      order (the store itself leaves ties unordered). */
  function Sort(s: seq<Application>, f: SortField, asc: bool): (r: seq<Application>)
    ensures SortedBy(r, f, asc)
    ensures multiset(r) == multiset(s)
    ensures |r| == |s|
  {
    if s == [] then []
    else
      var rest := Sort(s[1..], f, asc);
      InsertSorted(s[0], rest, f, asc);
      InsertPermutes(s[0], rest, f, asc);
      assert s == [s[0]] + s[1..];
      assert multiset(s) == multiset(s[1..]) + multiset{s[0]};
      Insert(s[0], rest, f, asc)
  }

  lemma SortMembers(s: seq<Application>, f: SortField, asc: bool, a: Application)
    ensures a in Sort(s, f, asc) <==> a in s
  {
    assert a in Sort(s, f, asc) <==> a in multiset(Sort(s, f, asc));
  }

  /** The first `k` records of a sort are the top `k`: together with the records
      after them they are exactly the input, and each of them may come before
      every record left out. */
  lemma SortTop(s: seq<Application>, f: SortField, asc: bool, k: nat)
    ensures var sorted := Sort(s, f, asc);
      var top := Take(sorted, k);
      && multiset(top) + multiset(sorted[|top|..]) == multiset(s)
      && (forall a, b :: a in top && b in sorted[|top|..] ==> Precedes(a, b, f, asc))
  {
    var sorted := Sort(s, f, asc);
    var top := Take(sorted, k);
    var rest := sorted[|top|..];
    assert sorted == top + rest;
    forall a, b | a in top && b in rest
      ensures Precedes(a, b, f, asc)
    {
      var i :| 0 <= i < |top| && top[i] == a;
      var j :| 0 <= j < |rest| && rest[j] == b;
      assert sorted[i] == a && sorted[|top| + j] == b;
    }
  }

  /** A prefix of a sorted result is sorted and holds only input records. */
  lemma SortedPrefix(s: seq<Application>, r: seq<Application>, f: SortField, asc: bool)
    requires r <= Sort(s, f, asc)
    ensures SortedBy(r, f, asc)
    ensures forall i :: 0 <= i < |r| ==> r[i] in s
  {
    var sorted := Sort(s, f, asc);
    forall i | 0 <= i < |r|
      ensures r[i] in s
    {
      assert r[i] == sorted[i] && sorted[i] in sorted;
      SortMembers(s, f, asc, r[i]);
    }
  }

  /** `.limit(n)`: the first `n` elements. */
  function Take<T>(s: seq<T>, n: nat): (r: seq<T>)
    ensures |r| <= n && |r| <= |s|
    ensures |r| == if n < |s| then n else |s|
    ensures r <= s
  {
    if n < |s| then s[..n] else s
  }

  /** `.skip(n)`: everything after the first `n` elements. */
  function Skip<T>(s: seq<T>, n: nat): (r: seq<T>)
    ensures |r| == if n < |s| then |s| - n else 0
    ensures forall i :: 0 <= i < |r| ==> r[i] == s[n + i]
  {
    if n < |s| then s[n..] else []
  }

  // --------------------------------------------------------- status groups

  /** One row of `$group: { _id: '$status', count: { $sum: 1 } }`, and one entry
      of the object the handlers fill from those rows. */
  datatype StatusCount = StatusCount(name: string, count: nat)

  function StatusesOf(apps: seq<Application>): (r: seq<string>)
    ensures |r| == |apps|
    ensures forall i :: 0 <= i < |apps| ==> r[i] == apps[i].status
  {
    seq(|apps|, i requires 0 <= i < |apps| => apps[i].status)
  }

  function Names(cs: seq<StatusCount>): (r: seq<string>)
    ensures |r| == |cs|
    ensures forall i :: 0 <= i < |cs| ==> r[i] == cs[i].name
  {
    seq(|cs|, i requires 0 <= i < |cs| => cs[i].name)
  }

  /** The statuses listed are exactly those of the records. */
  lemma StatusesOfMembers(apps: seq<Application>)
    ensures forall a :: a in apps ==> a.status in StatusesOf(apps)
    ensures forall name :: name in StatusesOf(apps) ==> CountStatus(apps, name) >= 1
  {
    var ss := StatusesOf(apps);
    forall a | a in apps
      ensures a.status in ss
    {
      var i :| 0 <= i < |apps| && apps[i] == a;
      assert ss[i] == a.status;
    }
    forall name | name in ss
      ensures CountStatus(apps, name) >= 1
    {
      var i :| 0 <= i < |ss| && ss[i] == name;
      assert apps[i] in apps;
    }
  }

  /** The rows of the status `$group`: one per status present, with its count
      (the store leaves the row order open; here it is first-occurrence order). */
  function GroupByStatus(apps: seq<Application>): (g: seq<StatusCount>)
    ensures NoDuplicates(Names(g))
    ensures forall i :: 0 <= i < |g| ==> g[i].count == CountStatus(apps, g[i].name) && g[i].count >= 1
    ensures forall a :: a in apps ==> a.status in Names(g)
  {
    var names := Distinct(StatusesOf(apps));
    var g := seq(|names|, i requires 0 <= i < |names| => StatusCount(names[i], CountStatus(apps, names[i])));
    assert Names(g) == names;
    StatusesOfMembers(apps);
    g
  }

  /** The value JavaScript's `obj[name]` holds after the assignments of `gs` in
      order: the count of the last row named `name`, or 0 when none is. */
  function ValueOf(gs: seq<StatusCount>, name: string): nat {
    if gs == [] then 0
    else if gs[|gs| - 1].name == name then gs[|gs| - 1].count
    else ValueOf(gs[..|gs| - 1], name)
  }

  lemma {:induction false} ValueOfUnique(gs: seq<StatusCount>, name: string)
    requires NoDuplicates(Names(gs))
    ensures forall i :: 0 <= i < |gs| && gs[i].name == name ==> ValueOf(gs, name) == gs[i].count
    ensures name !in Names(gs) ==> ValueOf(gs, name) == 0
  {
    if gs != [] {
      var init := gs[..|gs| - 1];
      assert Names(init) == Names(gs)[..|gs| - 1];
      ValueOfUnique(init, name);
      if name in Names(init) {
        var i :| 0 <= i < |init| && Names(init)[i] == name;
        assert gs[i].name == name;
      }
    }
  }

  /** The value the status table holds for a status equals its number of records. */
  lemma ValueOfGroups(apps: seq<Application>, name: string)
    ensures ValueOf(GroupByStatus(apps), name) == CountStatus(apps, name)
  {
    var g := GroupByStatus(apps);
    ValueOfUnique(g, name);
    if name in Names(g) {
      var i :| 0 <= i < |g| && Names(g)[i] == name;
    } else {
      assert forall a :: a in apps ==> a.status != name;
    }
  }

  /** `obj[name]`, when the key exists. */
  function Get(table: seq<StatusCount>, name: string): Option<nat> {
    if table == [] then None
    else if table[0].name == name then Some(table[0].count)
    else Get(table[1..], name)
  }

  lemma {:induction false} GetAt(table: seq<StatusCount>, k: nat)
    requires k < |table| && NoDuplicates(Names(table))
    ensures Get(table, table[k].name) == Some(table[k].count)
  {
    if k > 0 {
      assert Names(table[1..]) == Names(table)[1..];
      assert table[0].name != table[k].name by {
        assert Names(table)[0] != Names(table)[k];
      }
      GetAt(table[1..], k - 1);
    }
  }

  lemma {:induction false} GetAbsent(table: seq<StatusCount>, name: string)
    requires name !in Names(table)
    ensures Get(table, name) == None
  {
    if table != [] {
      assert Names(table[1..]) == Names(table)[1..];
      assert Names(table)[0] == table[0].name;
      GetAbsent(table[1..], name);
    }
  }

  lemma StatusNameIsStatus(s: Status)
    ensures IsStatusName(StatusName(s))
  {
    assert ParseStatus(StatusName(s)) == Some(s);
  }

  /** The four status names in declaration order. */
  function StatusKeys(): (ks: seq<string>)
    ensures |ks| == 4 && NoDuplicates(ks)
    ensures forall name :: name in ks <==> IsStatusName(name)
  {
    var ks := [StatusName(Applied), StatusName(Interview), StatusName(Offer), StatusName(Rejected)];
    forall name | IsStatusName(name)
      ensures name in ks
    {
      assert StatusName(ParseStatus(name).value) == name;
    }
    ks
  }

  /** The table `{ k0: 0, k1: 0, ... }` of the given keys; for the four status
      keys, `{ Applied: 0, Interview: 0, Offer: 0, Rejected: 0 }`. */
  function ZeroTable(keys: seq<string>): (t: seq<StatusCount>)
    ensures Names(t) == keys
    ensures forall k :: 0 <= k < |t| ==> t[k].count == 0
  {
    seq(|keys|, k requires 0 <= k < |keys| => StatusCount(keys[k], 0))
  }

  /** The position of key `name` in the table, or `|table|` when it is absent. */
  function FindKey(table: seq<StatusCount>, name: string): (j: nat)
    ensures j <= |table|
    ensures forall m :: 0 <= m < j ==> table[m].name != name
    ensures j < |table| ==> table[j].name == name
  {
    if table == [] || table[0].name == name then 0 else 1 + FindKey(table[1..], name)
  }

  // ------------------------------------------------ JavaScript property order

  /** The value of `key` read as a canonical decimal numeral (digits only, no
      leading zero unless the numeral is "0"), or -1 when it is not one. */
  function NumeralValue(key: string): (v: int)
    ensures v >= -1
  {
    if key == [] then -1
    else
      var c := key[|key| - 1];
      var d := if Text.IsDigit(c) then c as int - '0' as int else -1;
      if |key| == 1 then d
      else
        var p := NumeralValue(key[..|key| - 1]);
        if p <= 0 || d < 0 then -1 else p * 10 + d
  }

  /** A key JavaScript treats as an array index: the canonical rendering of a
      number below 2^32 - 1. */
  predicate IsArrayIndex(key: string) {
    0 <= NumeralValue(key) < 0xFFFF_FFFF
  }

  /** A numeral starts with a digit. */
  lemma {:induction false} NumeralStartsWithDigit(key: string)
    requires NumeralValue(key) >= 0
    ensures Text.IsDigit(key[0])
  {
    if |key| > 1 {
      NumeralStartsWithDigit(key[..|key| - 1]);
    }
  }

  /** Two numerals with the same value are the same key. */
  lemma {:induction false} NumeralInjective(a: string, b: string)
    requires NumeralValue(a) >= 0 && NumeralValue(b) >= 0
    ensures NumeralValue(a) == NumeralValue(b) ==> a == b
  {
    if |a| > 1 && |b| > 1 {
      NumeralInjective(a[..|a| - 1], b[..|b| - 1]);
      assert a == a[..|a| - 1] + [a[|a| - 1]];
      assert b == b[..|b| - 1] + [b[|b| - 1]];
    } else if |a| == 1 && |b| == 1 {
      assert a == [a[0]] && b == [b[0]];
    }
  }

  /** The key whose assignment sets an object's prototype; assigning it a number
      is ignored and creates no property. */
  const ProtoKey: string := "__proto__"

  /** Keys in the order in which `Object.entries` and `JSON.stringify` list an
      object's own properties (section 10.1.11.1 of ECMA-262): every array index
      before every other key, the array indices ascending. */
  predicate InPropertyOrder(keys: seq<string>) {
    forall i, j :: 0 <= i < j < |keys| && IsArrayIndex(keys[j]) ==>
      IsArrayIndex(keys[i]) && NumeralValue(keys[i]) < NumeralValue(keys[j])
  }

  /** The number of array-index keys at the front. In property order the keys
      after them are the other keys, which JavaScript lists in creation order. */
  function IndexCount(keys: seq<string>): (c: nat)
    ensures c <= |keys|
    ensures forall i :: 0 <= i < c ==> IsArrayIndex(keys[i])
    ensures c < |keys| ==> !IsArrayIndex(keys[c])
  {
    if keys != [] && IsArrayIndex(keys[0]) then 1 + IndexCount(keys[1..]) else 0
  }

  /** In property order no array index follows the leading ones. */
  lemma OrderTail(keys: seq<string>)
    requires InPropertyOrder(keys)
    ensures forall i :: IndexCount(keys) <= i < |keys| ==> !IsArrayIndex(keys[i])
  {
    var c := IndexCount(keys);
    assert c < |keys| ==> !IsArrayIndex(keys[c]);
  }

  /** Leading array indices followed by another key (or by nothing) fix the count. */
  lemma {:induction false} IndexCountIs(keys: seq<string>, c: nat)
    requires c <= |keys|
    requires forall i :: 0 <= i < c ==> IsArrayIndex(keys[i])
    requires c < |keys| ==> !IsArrayIndex(keys[c])
    ensures IndexCount(keys) == c
  {
    if c > 0 {
      assert IsArrayIndex(keys[0]);
      assert forall i :: 0 <= i < |keys| - 1 ==> keys[1..][i] == keys[i + 1];
      IndexCountIs(keys[1..], c - 1);
    } else if keys != [] {
      assert !IsArrayIndex(keys[0]);
    }
  }

  /** The keys an object literal starts with: distinct, none an array index and
      none `__proto__`, like the four status keys. */
  ghost predicate BaseKeys(base: seq<string>) {
    && NoDuplicates(base)
    && (forall k :: k in base ==> !IsArrayIndex(k) && k != ProtoKey)
  }

  /** A row's key that creates a property listed after the keys of `base`. */
  predicate CreatesPlainKey(base: seq<string>, k: string) {
    !IsArrayIndex(k) && k !in base && k != ProtoKey
  }

  function NewPlainKey(base: seq<string>): string -> bool {
    (k: string) => CreatesPlainKey(base, k)
  }

  /** The keys the assignments to `named` add after the keys of `base`, in the
      order they are first named. */
  function NewKeys(named: seq<string>, base: seq<string>): (ks: seq<string>)
    ensures forall x :: x in ks ==> CreatesPlainKey(base, x)
  {
    if named == [] then []
    else
      var prev, x := NewKeys(named[..|named| - 1], base), named[|named| - 1];
      if CreatesPlainKey(base, x) && x !in prev then prev + [x] else prev
  }

  /** The number of leading keys that are array indices below `v`. */
  function IndexSlot(keys: seq<string>, v: nat): (m: nat)
    ensures m <= |keys|
    ensures forall i :: 0 <= i < m ==> IsArrayIndex(keys[i]) && NumeralValue(keys[i]) < v
    ensures m < |keys| ==> !(IsArrayIndex(keys[m]) && NumeralValue(keys[m]) < v)
  {
    if keys != [] && IsArrayIndex(keys[0]) && NumeralValue(keys[0]) < v
    then 1 + IndexSlot(keys[1..], v) else 0
  }

  /** `obj[row.name] = row.count` with the keys in property order: `__proto__` is
      ignored, an existing key keeps its place and takes the new value, a new
      array index goes among the array indices by value, and any other new key
      is appended. */
  function SetKey(table: seq<StatusCount>, row: StatusCount): seq<StatusCount> {
    if row.name == ProtoKey then table
    else
      var j := FindKey(table, row.name);
      if j < |table| then table[j := row]
      else if IsArrayIndex(row.name) then
        InsertAt(table, IndexSlot(Names(table), NumeralValue(row.name)), row)
      else table + [row]
  }

  /** `obj[row.name] = row.count` as seen through reads: `__proto__` changes
      nothing; otherwise the key then reads as the new count, every other key
      reads as before, and the keys are the old ones plus this one. */
  lemma SetKeyAssigns(table: seq<StatusCount>, row: StatusCount)
    ensures row.name == ProtoKey ==> SetKey(table, row) == table
    ensures row.name != ProtoKey ==> Get(SetKey(table, row), row.name) == Some(row.count)
    ensures forall name :: name != row.name ==> Get(SetKey(table, row), name) == Get(table, name)
    ensures forall name :: name in Names(SetKey(table, row)) <==>
      name in Names(table) || (name == row.name && name != ProtoKey)
  {
    if row.name != ProtoKey {
      var j := FindKey(table, row.name);
      if j < |table| {
        assert SetKey(table, row) == table[j := row];
        GetUpdate(table, j, row);
        assert Names(table[j := row]) == Names(table);
      } else {
        assert row.name !in Names(table);
        if IsArrayIndex(row.name) {
          var m := IndexSlot(Names(table), NumeralValue(row.name));
          GetInsert(table, m, row);
          NamesInsert(table, m, row);
        } else {
          GetSnoc(table, row);
          NamesSnoc(table, row);
        }
      }
    }
  }

  /** Overwriting the first row of a key changes what that key reads and nothing else. */
  lemma {:induction false} GetUpdate(table: seq<StatusCount>, j: nat, row: StatusCount)
    requires j < |table| && table[j].name == row.name
    requires forall m :: 0 <= m < j ==> table[m].name != row.name
    ensures Get(table[j := row], row.name) == Some(row.count)
    ensures forall name :: Get(table[j := row], name) == if name == row.name then Some(row.count) else Get(table, name)
  {
    if j > 0 {
      var t := table[j := row];
      GetUpdate(table[1..], j - 1, row);
      assert t[1..] == table[1..][j - 1 := row];
      assert t[0] == table[0] && table[0].name != row.name;
      forall name
        ensures Get(t, name) == if name == row.name then Some(row.count) else Get(table, name)
      {
        assert Get(t, name) == if table[0].name == name then Some(table[0].count) else Get(t[1..], name);
        assert Get(table, name) == if table[0].name == name then Some(table[0].count) else Get(table[1..], name);
        assert Get(t[1..], name) == if name == row.name then Some(row.count) else Get(table[1..], name);
      }
    } else {
      var t := table[j := row];
      assert t[0] == row && t[1..] == table[1..];
      forall name
        ensures Get(t, name) == if name == row.name then Some(row.count) else Get(table, name)
      {
        assert Get(t, name) == if name == row.name then Some(row.count) else Get(t[1..], name);
      }
    }
  }

  /** A row for a new key, inserted anywhere, is what that key reads. */
  lemma {:induction false} GetInsert(table: seq<StatusCount>, m: nat, row: StatusCount)
    requires m <= |table| && row.name !in Names(table)
    ensures forall name :: Get(InsertAt(table, m, row), name) == if name == row.name then Some(row.count) else Get(table, name)
  {
    if m > 0 {
      assert Names(table)[0] == table[0].name;
      assert Names(table[1..]) == Names(table)[1..];
      GetInsert(table[1..], m - 1, row);
      assert InsertAt(table, m, row)[1..] == InsertAt(table[1..], m - 1, row);
    } else {
      assert InsertAt(table, m, row)[1..] == table;
    }
  }

  /** A row for a new key, appended, is what that key reads. */
  lemma {:induction false} GetSnoc(table: seq<StatusCount>, row: StatusCount)
    requires row.name !in Names(table)
    ensures forall name :: Get(table + [row], name) == if name == row.name then Some(row.count) else Get(table, name)
  {
    if table != [] {
      assert Names(table)[0] == table[0].name;
      assert Names(table[1..]) == Names(table)[1..];
      GetSnoc(table[1..], row);
      assert (table + [row])[1..] == table[1..] + [row];
    } else {
      assert ([row])[1..] == [];
    }
  }

  /** Status names and `__proto__` are not array indices, and `__proto__` is not a status. */
  lemma PlainStatusKeys(name: string)
    ensures IsStatusName(name) || name == ProtoKey ==> !IsArrayIndex(name)
    ensures !IsStatusName(ProtoKey)
  {
    if IsStatusName(name) || name == ProtoKey {
      assert name != [] && !Text.IsDigit(name[0]) by {
        if IsStatusName(name) {
          assert StatusName(ParseStatus(name).value) == name;
        }
      }
      if NumeralValue(name) >= 0 {
        NumeralStartsWithDigit(name);
      }
    }
  }

  lemma NamesInsert(table: seq<StatusCount>, m: nat, row: StatusCount)
    requires m <= |table|
    ensures Names(InsertAt(table, m, row)) == InsertAt(Names(table), m, row.name)
  {
    var t, ns := InsertAt(table, m, row), InsertAt(Names(table), m, row.name);
    forall i | 0 <= i < |t|
      ensures Names(t)[i] == ns[i]
    {
      if i < m {
        assert t[i] == table[i];
      } else if i > m {
        assert t[i] == table[i - 1];
      }
    }
  }

  /** A new array index placed after the smaller indices keeps the property order. */
  lemma InsertIndexOrder(keys: seq<string>, m: nat, x: string)
    requires InPropertyOrder(keys) && IsArrayIndex(x) && x !in keys && m <= |keys|
    requires forall i :: 0 <= i < m ==> IsArrayIndex(keys[i]) && NumeralValue(keys[i]) < NumeralValue(x)
    requires m < |keys| ==> !(IsArrayIndex(keys[m]) && NumeralValue(keys[m]) < NumeralValue(x))
    ensures InPropertyOrder(InsertAt(keys, m, x))
  {
    var ks := InsertAt(keys, m, x);
    forall i, j | 0 <= i < j < |ks| && IsArrayIndex(ks[j])
      ensures IsArrayIndex(ks[i]) && NumeralValue(ks[i]) < NumeralValue(ks[j])
    {
      InsertedPair(keys, m, x, i, j);
    }
  }

  /** One pair of keys after the insertion is in property order. */
  lemma InsertedPair(keys: seq<string>, m: nat, x: string, i: nat, j: nat)
    requires InPropertyOrder(keys) && IsArrayIndex(x) && x !in keys && m <= |keys|
    requires forall i :: 0 <= i < m ==> IsArrayIndex(keys[i]) && NumeralValue(keys[i]) < NumeralValue(x)
    requires m < |keys| ==> !(IsArrayIndex(keys[m]) && NumeralValue(keys[m]) < NumeralValue(x))
    requires i < j < |keys| + 1 && IsArrayIndex(InsertAt(keys, m, x)[j])
    ensures var ks := InsertAt(keys, m, x);
      IsArrayIndex(ks[i]) && NumeralValue(ks[i]) < NumeralValue(ks[j])
  {
    var ks := InsertAt(keys, m, x);
    if j < m {
      assert ks[i] == keys[i] && ks[j] == keys[j];
    } else if j == m {
      assert ks[i] == keys[i];
    } else if i < m {
      assert ks[i] == keys[i] && ks[j] == keys[j - 1];
    } else if i > m {
      assert ks[i] == keys[i - 1] && ks[j] == keys[j - 1];
    } else {
      assert ks[j] == keys[j - 1];
      IndexBelowRest(keys, m, x, j - 1);
    }
  }

  /** A new array index no smaller than the first `m` keys is below every array
      index from position `m` on. */
  lemma IndexBelowRest(keys: seq<string>, m: nat, x: string, j: nat)
    requires InPropertyOrder(keys) && IsArrayIndex(x) && x !in keys && m <= j < |keys|
    requires !(IsArrayIndex(keys[m]) && NumeralValue(keys[m]) < NumeralValue(x))
    requires IsArrayIndex(keys[j])
    ensures NumeralValue(x) < NumeralValue(keys[j])
  {
    assert IsArrayIndex(keys[m]) && NumeralValue(keys[m]) <= NumeralValue(keys[j]);
    NumeralInjective(keys[m], x);
    assert keys[m] in keys;
  }

  /** A new array index placed among the leading array indices joins them; the
      other keys stay as they were. */
  lemma InsertIndexCount(keys: seq<string>, m: nat, x: string)
    requires IsArrayIndex(x) && m <= |keys|
    requires forall i :: 0 <= i < m ==> IsArrayIndex(keys[i])
    ensures IndexCount(InsertAt(keys, m, x)) == IndexCount(keys) + 1
    ensures InsertAt(keys, m, x)[IndexCount(keys) + 1..] == keys[IndexCount(keys)..]
  {
    var ks, c := InsertAt(keys, m, x), IndexCount(keys);
    forall i | 0 <= i < c + 1
      ensures IsArrayIndex(ks[i])
    {
      if i < m {
        assert ks[i] == keys[i];
      } else if i > m {
        assert ks[i] == keys[i - 1];
      }
    }
    if c + 1 < |ks| {
      assert ks[c + 1] == keys[c];
    }
    IndexCountIs(ks, c + 1);
    forall i | 0 <= i < |keys| - c
      ensures ks[c + 1..][i] == keys[c..][i]
    {
      assert ks[c + 1 + i] == keys[c + i];
    }
  }

  /** A new key that is not an array index goes last. */
  lemma AppendPlainKey(keys: seq<string>, x: string)
    requires InPropertyOrder(keys) && !IsArrayIndex(x)
    ensures var ks := keys + [x];
      && InPropertyOrder(ks)
      && IndexCount(ks) == IndexCount(keys)
      && ks[IndexCount(ks)..] == keys[IndexCount(keys)..] + [x]
  {
    var ks := keys + [x];
    forall i, j | 0 <= i < j < |ks| && IsArrayIndex(ks[j])
      ensures IsArrayIndex(ks[i]) && NumeralValue(ks[i]) < NumeralValue(ks[j])
    {
      assert ks[i] == keys[i] && ks[j] == keys[j];
    }
    OrderTail(keys);
    IndexCountIs(ks, IndexCount(keys));
  }

  lemma ValueOfSnoc(rows: seq<StatusCount>, row: StatusCount, name: string)
    ensures ValueOf(rows + [row], name) == if name == row.name then row.count else ValueOf(rows, name)
  {
    assert (rows + [row])[..|rows|] == rows;
  }

  lemma NamesSnoc(rows: seq<StatusCount>, row: StatusCount)
    ensures Names(rows + [row]) == Names(rows) + [row.name]
  {
  }

  /** A further name adds its key to the new keys when it creates a plain key
      not named before. */
  lemma NewKeysSnoc(named: seq<string>, x: string, base: seq<string>)
    ensures NewKeys(named + [x], base) ==
      if CreatesPlainKey(base, x) && x !in NewKeys(named, base) then NewKeys(named, base) + [x] else NewKeys(named, base)
  {
    assert (named + [x])[..|named|] == named;
  }

  /** The same step stated on the distinct filtered names. */
  lemma FilteredKeysSnoc(named: seq<string>, x: string, base: seq<string>)
    ensures var f := Filter(named, NewPlainKey(base));
      Distinct(Filter(named + [x], NewPlainKey(base))) ==
        if CreatesPlainKey(base, x) && x !in Distinct(f) then Distinct(f) + [x] else Distinct(f)
  {
    var f := Filter(named, NewPlainKey(base));
    FilterAppend(named, [x], NewPlainKey(base));
    assert [x][1..] == [];
    if NewPlainKey(base)(x) {
      assert (f + [x])[..|f|] == f;
    } else {
      assert f + [] == f;
    }
  }

  /** The new keys are the named keys that create a plain key, each kept once,
      at its first occurrence. */
  lemma {:induction false} NewKeysAre(named: seq<string>, base: seq<string>)
    ensures NewKeys(named, base) == Distinct(Filter(named, NewPlainKey(base)))
  {
    if named == [] {
      assert Filter(named, NewPlainKey(base)) == [];
    } else {
      var init, x := named[..|named| - 1], named[|named| - 1];
      assert named == init + [x];
      NewKeysAre(init, base);
      FilteredKeysSnoc(init, x, base);
    }
  }

  /** The keys of an object that started as `{ k0: 0, ... }` with the keys of
      `base` and then had `obj[name] = ...` done for each key of `named`: those
      of `base` and every named key but `__proto__`, without repetition and in
      property order; after the array indices come the keys of `base`, then the
      other keys in the order they were first named. */
  ghost predicate KeysAfter(ks: seq<string>, named: seq<string>, base: seq<string>) {
    && NoDuplicates(ks)
    && (forall name :: name in ks <==> name in base || (name in named && name != ProtoKey))
    && InPropertyOrder(ks)
    && ks[IndexCount(ks)..] == base + NewKeys(named, base)
  }

  /** The table after `obj = { k0: 0, ... }` and `obj[name] = value` for each
      row in turn: it has the keys above, each holding the last value assigned
      to it, or 0. */
  ghost predicate TableAfter(table: seq<StatusCount>, rows: seq<StatusCount>, base: seq<string>) {
    && KeysAfter(Names(table), Names(rows), base)
    && (forall k :: 0 <= k < |table| ==> table[k].count == ValueOf(rows, table[k].name))
  }

  lemma TableAfterStart(base: seq<string>)
    requires BaseKeys(base)
    ensures TableAfter(ZeroTable(base), [], base)
  {
    var ks := Names(ZeroTable(base));
    assert forall i :: 0 <= i < |ks| ==> ks[i] in base;
    IndexCountIs(ks, 0);
    assert Names([]) == [];
  }

  /** Adding key `x` to keys that are those of `base` and the named ones but
      `__proto__` gives the keys once `x` is named too. */
  lemma KeySetStep(ks: seq<string>, ks': seq<string>, named: seq<string>, base: seq<string>, x: string)
    requires forall name :: name in ks <==> name in base || (name in named && name != ProtoKey)
    requires forall y :: y in ks' <==> y in ks || y == x
    requires x != ProtoKey
    ensures forall name :: name in ks' <==> name in base || (name in named + [x] && name != ProtoKey)
  {
  }

  /** Naming `__proto__` adds no key. */
  lemma KeysProto(ks: seq<string>, named: seq<string>, base: seq<string>)
    requires BaseKeys(base) && KeysAfter(ks, named, base)
    ensures KeysAfter(ks, named + [ProtoKey], base)
  {
    NewKeysSnoc(named, ProtoKey, base);
  }

  /** Naming a key that is present adds none. */
  lemma KeysExisting(ks: seq<string>, named: seq<string>, base: seq<string>, x: string)
    requires KeysAfter(ks, named, base) && x in ks && x != ProtoKey
    ensures KeysAfter(ks, named + [x], base)
  {
    NewKeysSnoc(named, x, base);
    KeySetStep(ks, ks, named, base, x);
    if CreatesPlainKey(base, x) {
      var c, j := IndexCount(ks), IndexOf(ks, x);
      OrderTail(ks);
      assert j >= c;
      assert ks[c..][j - c] == x;
    }
  }

  /** Naming a new array index inserts it among the array indices. */
  lemma KeysNewIndex(ks: seq<string>, named: seq<string>, base: seq<string>, x: string)
    requires KeysAfter(ks, named, base) && x !in ks && IsArrayIndex(x)
    ensures KeysAfter(InsertAt(ks, IndexSlot(ks, NumeralValue(x)), x), named + [x], base)
  {
    var m := IndexSlot(ks, NumeralValue(x));
    NoDuplicatesInsert(ks, m, x);
    KeySetStep(ks, InsertAt(ks, m, x), named, base, x);
    InsertIndexOrder(ks, m, x);
    IndexTail(ks, named, base, m, x);
  }

  /** After the insertion the keys past the array indices are those before it. */
  lemma IndexTail(ks: seq<string>, named: seq<string>, base: seq<string>, m: nat, x: string)
    requires IsArrayIndex(x) && m <= |ks|
    requires forall i :: 0 <= i < m ==> IsArrayIndex(ks[i])
    requires ks[IndexCount(ks)..] == base + NewKeys(named, base)
    ensures var ks' := InsertAt(ks, m, x);
      ks'[IndexCount(ks')..] == base + NewKeys(named + [x], base)
  {
    InsertIndexCount(ks, m, x);
    NewKeysSnoc(named, x, base);
  }

  /** Naming any other new key appends it. */
  lemma KeysNewPlain(ks: seq<string>, named: seq<string>, base: seq<string>, x: string)
    requires KeysAfter(ks, named, base) && x !in ks && !IsArrayIndex(x) && x != ProtoKey
    ensures KeysAfter(ks + [x], named + [x], base)
  {
    NewKeysSnoc(named, x, base);
    NoDuplicatesSnoc(ks, x);
    KeySetStep(ks, ks + [x], named, base, x);
    AppendPlainKey(ks, x);
    var c := IndexCount(ks);
    assert forall y :: y in NewKeys(named, base) ==> y in ks[c..];
  }

  /** `obj[row.name] = row.count` keeps the table as the assignments so far
      leave it. */
  lemma TableAfterStep(table: seq<StatusCount>, rows: seq<StatusCount>, row: StatusCount, base: seq<string>)
    requires BaseKeys(base) && TableAfter(table, rows, base)
    ensures TableAfter(SetKey(table, row), rows + [row], base)
  {
    var ks, t := Names(table), SetKey(table, row);
    NamesSnoc(rows, row);
    var j := FindKey(table, row.name);
    if row.name == ProtoKey {
      KeysProto(ks, Names(rows), base);
    } else if j < |table| {
      assert Names(t) == ks;
      KeysExisting(ks, Names(rows), base, row.name);
    } else if IsArrayIndex(row.name) {
      NamesInsert(table, IndexSlot(ks, NumeralValue(row.name)), row);
      KeysNewIndex(ks, Names(rows), base, row.name);
    } else {
      NamesSnoc(table, row);
      KeysNewPlain(ks, Names(rows), base, row.name);
    }
    forall k | 0 <= k < |t|
      ensures t[k].count == ValueOf(rows + [row], t[k].name)
    {
      ValueOfSnoc(rows, row, t[k].name);
      StepValue(table, rows, row, k);
    }
  }

  /** The value a key of the new table holds. */
  lemma StepValue(table: seq<StatusCount>, rows: seq<StatusCount>, row: StatusCount, k: nat)
    requires NoDuplicates(Names(table))
    requires forall i :: 0 <= i < |table| ==> table[i].count == ValueOf(rows, table[i].name)
    requires k < |SetKey(table, row)|
    ensures var t := SetKey(table, row);
      || (t[k].name == row.name && t[k].count == row.count && row.name != ProtoKey)
      || (t[k].name != row.name && t[k].count == ValueOf(rows, t[k].name))
      || (row.name == ProtoKey && t[k].count == ValueOf(rows, t[k].name))
  {
    var j := FindKey(table, row.name);
    if row.name != ProtoKey && j < |table| {
      if k != j {
        assert Names(table)[k] != Names(table)[j];
      }
    } else if row.name != ProtoKey && IsArrayIndex(row.name) {
      var m := IndexSlot(Names(table), NumeralValue(row.name));
      if k < m {
        assert SetKey(table, row)[k] == table[k];
      } else if k > m {
        assert SetKey(table, row)[k] == table[k - 1];
      }
    }
  }

  /** The four status keys start the table. */
  lemma StatusKeysBase()
    ensures BaseKeys(StatusKeys())
  {
    forall k | k in StatusKeys()
      ensures !IsArrayIndex(k) && k != ProtoKey
    {
      PlainStatusKeys(k);
    }
  }

  /** `table = { Applied: 0, Interview: 0, Offer: 0, Rejected: 0 };
      rows.forEach(r => table[r._id] = r.count)`. The keys are the four statuses
      and every row's key except `__proto__`, each once, holding the last count
      assigned to it, and listed in JavaScript's property order: array-index keys
      first by value, then the four status keys in declaration order, then the
      other keys in the order the rows first named them. */
  method FillStatusTable(rows: seq<StatusCount>) returns (table: seq<StatusCount>)
    ensures NoDuplicates(Names(table))
    ensures forall name :: name in Names(table) <==> IsStatusName(name) || (name in Names(rows) && name != ProtoKey)
    ensures forall k :: 0 <= k < |table| ==> table[k].count == ValueOf(rows, table[k].name)
    ensures InPropertyOrder(Names(table))
    ensures Names(table)[IndexCount(Names(table))..] ==
      StatusKeys() + Distinct(Filter(Names(rows), NewPlainKey(StatusKeys())))
  {
    var base := StatusKeys();
    StatusKeysBase();
    table := ZeroTable(base);
    TableAfterStart(base);
    var i := 0;
    while i < |rows|
      invariant 0 <= i <= |rows|
      invariant TableAfter(table, rows[..i], base)
    {
      TableAfterStep(table, rows[..i], rows[i], base);
      assert rows[..i + 1] == rows[..i] + [rows[i]];
      table := SetKey(table, rows[i]);
      i := i + 1;
    }
    assert rows[..i] == rows;
    NewKeysAre(Names(rows), base);
  }

  /** The status rows name exactly the statuses some record has. */
  lemma GroupNames(owned: seq<Application>)
    ensures forall name :: name in Names(GroupByStatus(owned)) <==> CountStatus(owned, name) >= 1
  {
    var rows := GroupByStatus(owned);
    forall name
      ensures name in Names(rows) <==> CountStatus(owned, name) >= 1
    {
      if CountStatus(owned, name) >= 1 {
        var a :| a in owned && a.status == name;
      }
      if name in Names(rows) {
        var i :| 0 <= i < |rows| && Names(rows)[i] == name;
      }
    }
  }

  /** A status table filled from the status groups of `owned` holds, for each of
      its keys, that status's number of records, and its keys are the four
      statuses and every other status present except `__proto__`. */
  lemma FilledTableCounts(owned: seq<Application>, rows: seq<StatusCount>, table: seq<StatusCount>)
    requires rows == GroupByStatus(owned)
    requires NoDuplicates(Names(table))
    requires forall name :: name in Names(table) <==> IsStatusName(name) || (name in Names(rows) && name != ProtoKey)
    requires forall k :: 0 <= k < |table| ==> table[k].count == ValueOf(rows, table[k].name)
    ensures forall k :: 0 <= k < |table| ==> table[k].count == CountStatus(owned, table[k].name)
    ensures forall name :: name in Names(table) <==>
      IsStatusName(name) || (CountStatus(owned, name) >= 1 && name != ProtoKey)
  {
    forall k | 0 <= k < |table|
      ensures table[k].count == CountStatus(owned, table[k].name)
    {
      ValueOfGroups(owned, table[k].name);
    }
    GroupNames(owned);
  }

  /** A key's value in a table whose keys hold their statuses' counts. */
  lemma CountAtKey(owned: seq<Application>, table: seq<StatusCount>, name: string)
    requires NoDuplicates(Names(table)) && name in Names(table)
    requires forall k :: 0 <= k < |table| ==> table[k].count == CountStatus(owned, table[k].name)
    ensures Get(table, name) == Some(CountStatus(owned, name))
  {
    var k := IndexOf(Names(table), name);
    GetAt(table, k);
  }
}
