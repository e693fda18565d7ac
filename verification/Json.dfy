/** JSON columns: what a database returns for the value it was given. */
module Json {
  import opened Sequences

  /** A JSON value with the key order it prints in. */
  datatype Json = Null | Atom(text: string) | List(items: seq<Json>) | Object(members: seq<Member>)

  datatype Member = Member(key: string, value: Json)

  datatype Dialect = Sqlite | Postgres

  /** The order `jsonb` keeps object keys in: shorter keys first, equal lengths by character. */
  predicate KeyBefore(a: string, b: string) {
    |a| < |b| || (|a| == |b| && CharsBefore(a, b))
  }

  predicate CharsBefore(a: string, b: string) {
    a == "" || (b != "" && (a[0] < b[0] || (a[0] == b[0] && CharsBefore(a[1..], b[1..]))))
  }

  lemma {:induction false} KeysCompare(a: string, b: string)
    requires |a| == |b|
    ensures CharsBefore(a, b) || CharsBefore(b, a)
  {
    if a != "" {
      KeysCompare(a[1..], b[1..]);
    }
  }

  function InsertMember(m: Member, sorted: seq<Member>): seq<Member> {
    if sorted == [] || KeyBefore(m.key, sorted[0].key) then [m] + sorted
    else [sorted[0]] + InsertMember(m, sorted[1..])
  }

  function SortMembers(members: seq<Member>): seq<Member> {
    if members == [] then [] else InsertMember(members[0], SortMembers(members[1..]))
  }

  /** The value with the keys of every object sorted, as a `jsonb` column gives it back. */
  function Sorted(json: Json): Json {
    match json
    case List(items) => List(SortedItems(items))
    case Object(members) => Object(SortMembers(SortedValues(members)))
    case _ => json
  }

  function SortedItems(items: seq<Json>): seq<Json> {
    if items == [] then [] else [Sorted(items[0])] + SortedItems(items[1..])
  }

  function SortedValues(members: seq<Member>): seq<Member> {
    if members == [] then []
    else [Member(members[0].key, Sorted(members[0].value))] + SortedValues(members[1..])
  }

  /** What a column of the dialect returns: SQLite keeps the text, PostgreSQL the sorted value. */
  function Stored(dialect: Dialect, json: Json): Json {
    match dialect
    case Sqlite => json
    case Postgres => Sorted(json)
  }

  // ---- which values storing keeps ---------------------------------------------------------

  predicate Ascending(members: seq<Member>) {
    |members| < 2 || (KeyBefore(members[0].key, members[1].key) && Ascending(members[1..]))
  }

  /** Every object of the value lists its keys in the stored order. */
  predicate InOrder(json: Json) {
    match json
    case List(items) => ItemsInOrder(items)
    case Object(members) => Ascending(members) && ValuesInOrder(members)
    case _ => true
  }

  predicate ItemsInOrder(items: seq<Json>) {
    items == [] || (InOrder(items[0]) && ItemsInOrder(items[1..]))
  }

  predicate ValuesInOrder(members: seq<Member>) {
    members == [] || (InOrder(members[0].value) && ValuesInOrder(members[1..]))
  }

  lemma {:induction false} InsertAscends(m: Member, sorted: seq<Member>)
    requires Ascending(sorted)
    ensures Ascending(InsertMember(m, sorted))
    ensures InsertMember(m, sorted) != []
    ensures InsertMember(m, sorted)[0] == m || (sorted != [] && InsertMember(m, sorted)[0] == sorted[0])
  {
    if sorted != [] && !KeyBefore(m.key, sorted[0].key) {
      InsertAscends(m, sorted[1..]);
      var rest := InsertMember(m, sorted[1..]);
      if |m.key| == |sorted[0].key| {
        KeysCompare(m.key, sorted[0].key);
      }
      assert KeyBefore(sorted[0].key, rest[0].key);
      assert ([sorted[0]] + rest)[1..] == rest;
    } else {
      assert ([m] + sorted)[1..] == sorted;
    }
  }

  lemma {:induction false} InsertValues(m: Member, sorted: seq<Member>)
    ensures ValuesInOrder(InsertMember(m, sorted)) <==> InOrder(m.value) && ValuesInOrder(sorted)
  {
    if sorted != [] && !KeyBefore(m.key, sorted[0].key) {
      InsertValues(m, sorted[1..]);
      assert ([sorted[0]] + InsertMember(m, sorted[1..]))[1..] == InsertMember(m, sorted[1..]);
    } else {
      assert ([m] + sorted)[1..] == sorted;
    }
  }

  lemma {:induction false} SortAscends(members: seq<Member>)
    ensures Ascending(SortMembers(members))
    ensures ValuesInOrder(SortMembers(members)) <==> ValuesInOrder(members)
  {
    if members != [] {
      SortAscends(members[1..]);
      InsertAscends(members[0], SortMembers(members[1..]));
      InsertValues(members[0], SortMembers(members[1..]));
    }
  }

  lemma {:induction false} SortKeepsAscending(members: seq<Member>)
    requires Ascending(members)
    ensures SortMembers(members) == members
  {
    if members != [] {
      SortKeepsAscending(members[1..]);
      assert members == [members[0]] + members[1..];
    }
  }

  lemma {:induction false} SortedIsInOrder(json: Json)
    ensures InOrder(Sorted(json))
    decreases json
  {
    match json
    case List(items) => SortedItemsInOrder(items);
    case Object(members) =>
      SortedValuesInOrder(members);
      SortAscends(SortedValues(members));
    case _ =>
  }

  lemma {:induction false} SortedItemsInOrder(items: seq<Json>)
    ensures ItemsInOrder(SortedItems(items))
    decreases items
  {
    if items != [] {
      SortedIsInOrder(items[0]);
      SortedItemsInOrder(items[1..]);
    }
  }

  lemma {:induction false} SortedValuesInOrder(members: seq<Member>)
    ensures ValuesInOrder(SortedValues(members))
    decreases members
  {
    if members != [] {
      SortedIsInOrder(members[0].value);
      SortedValuesInOrder(members[1..]);
    }
  }

  lemma {:induction false} InOrderStays(json: Json)
    requires InOrder(json)
    ensures Sorted(json) == json
    decreases json
  {
    match json
    case List(items) => ItemsStay(items);
    case Object(members) =>
      ValuesStay(members);
      SortKeepsAscending(members);
    case _ =>
  }

  lemma {:induction false} ItemsStay(items: seq<Json>)
    requires ItemsInOrder(items)
    ensures SortedItems(items) == items
    decreases items
  {
    if items != [] {
      InOrderStays(items[0]);
      ItemsStay(items[1..]);
    }
  }

  lemma {:induction false} ValuesStay(members: seq<Member>)
    requires ValuesInOrder(members)
    ensures SortedValues(members) == members
    decreases members
  {
    if members != [] {
      InOrderStays(members[0].value);
      ValuesStay(members[1..]);
    }
  }

  /** A value reads back as it was written exactly when the dialect keeps text or every key is in order. */
  lemma StoredUnchangedIff(dialect: Dialect, json: Json)
    ensures Stored(dialect, json) == json <==> dialect == Sqlite || InOrder(json)
  {
    SortedIsInOrder(json);
    if InOrder(json) {
      InOrderStays(json);
    }
  }

  /** Storing what was read back changes nothing. */
  lemma StoredTwice(dialect: Dialect, json: Json)
    ensures Stored(dialect, Stored(dialect, json)) == Stored(dialect, json)
    ensures Sorted(Stored(dialect, json)) == Sorted(json)
  {
    SortedIsInOrder(json);
    InOrderStays(Sorted(json));
  }

  // ---- what a value holds -----------------------------------------------------------------

  /** The value under a key of a list of members: the first one of that key. */
  function MemberAt(members: seq<Member>, key: string): (r: Option<Json>)
    ensures r.Some? <==> exists m :: m in members && m.key == key
  {
    if members == [] then None
    else if members[0].key == key then Some(members[0].value)
    else MemberAt(members[1..], key)
  }

  lemma {:induction false} CharsBeforeSelf(a: string)
    ensures CharsBefore(a, a)
  {
    if a != "" {
      CharsBeforeSelf(a[1..]);
    }
  }

  lemma {:induction false} InsertKeepsMembers(m: Member, sorted: seq<Member>, key: string)
    ensures MemberAt(InsertMember(m, sorted), key) == if m.key == key then Some(m.value) else MemberAt(sorted, key)
    ensures multiset(InsertMember(m, sorted)) == multiset{m} + multiset(sorted)
  {
    CharsBeforeSelf(m.key);
    if sorted != [] && !KeyBefore(m.key, sorted[0].key) {
      InsertKeepsMembers(m, sorted[1..], key);
      var rest := InsertMember(m, sorted[1..]);
      assert ([sorted[0]] + rest)[1..] == rest && sorted == [sorted[0]] + sorted[1..];
    } else {
      assert ([m] + sorted)[1..] == sorted;
    }
  }

  /** Sorting keeps the members and what stands under each key. */
  lemma {:induction false} SortKeepsMembers(members: seq<Member>, key: string)
    ensures MemberAt(SortMembers(members), key) == MemberAt(members, key)
    ensures multiset(SortMembers(members)) == multiset(members)
  {
    if members != [] {
      SortKeepsMembers(members[1..], key);
      InsertKeepsMembers(members[0], SortMembers(members[1..]), key);
      assert members == [members[0]] + members[1..];
    }
  }

  lemma {:induction false} ValuesKeepKeys(members: seq<Member>, key: string)
    ensures |SortedValues(members)| == |members|
    ensures MemberAt(SortedValues(members), key) ==
            if MemberAt(members, key).Some? then Some(Sorted(MemberAt(members, key).value)) else None
  {
    if members != [] {
      ValuesKeepKeys(members[1..], key);
    }
  }

  /** Under every key of an object a column returns what it returns for the value that stood there, and no more keys. */
  lemma StoredMember(dialect: Dialect, members: seq<Member>, key: string)
    ensures var stored := Stored(dialect, Object(members));
            && stored.Object? && |stored.members| == |members|
            && MemberAt(stored.members, key) ==
               if MemberAt(members, key).Some? then Some(Stored(dialect, MemberAt(members, key).value)) else None
  {
    if dialect == Postgres {
      SortKeepsMembers(SortedValues(members), key);
      ValuesKeepKeys(members, key);
      var sorted := SortMembers(SortedValues(members));
      assert |multiset(sorted)| == |sorted|;
      assert |multiset(SortedValues(members))| == |members|;
    }
  }

  /** Items of a list keep their places. */
  lemma {:induction false} SortedItem(items: seq<Json>, i: nat)
    requires i < |items|
    ensures |SortedItems(items)| == |items| && SortedItems(items)[i] == Sorted(items[i])
  {
    if i > 0 {
      SortedItem(items[1..], i - 1);
    } else if |items| > 1 {
      SortedItem(items[1..], 0);
    }
  }

  /** Of two different keys the shorter one comes first, and of equally long ones the one with the smaller character. */
  lemma {:induction false} KeyOrder(a: string, b: string, k: nat)
    requires k < |a| && k < |b| && a[..k] == b[..k] && a[k] != b[k]
    ensures CharsBefore(a, b) <==> a[k] < b[k]
    ensures KeyBefore(a, b) <==> |a| < |b| || (|a| == |b| && a[k] < b[k])
  {
    if k > 0 {
      assert a[0] == a[..k][0] && b[0] == b[..k][0];
      assert a[1..][..k - 1] == a[..k][1..] && b[1..][..k - 1] == b[..k][1..];
      KeyOrder(a[1..], b[1..], k - 1);
    }
  }

  /** The members an object reads back with from a `jsonb` column: in key order, none lost and none added. */
  lemma SortedMembers(members: seq<Member>)
    ensures Sorted(Object(members)).Object?
    ensures Ascending(Sorted(Object(members)).members)
    ensures multiset(Sorted(Object(members)).members) == multiset(SortedValues(members))
  {
    SortAscends(SortedValues(members));
    SortKeepsMembers(SortedValues(members), "");
  }
}
