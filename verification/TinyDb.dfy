/**
 A TinyDB table as bumper/db/base.py uses it: documents by their ids.  Ids are handed out in increasing
 order, so that ascending ids are the order in which the documents were inserted.
 */
module TinyDb {
  import opened Results

  datatype Table<T> = Table(docs: map<nat, T>, next: nat)
  {
    ghost predicate Valid() {
      forall id :: id in docs ==> id < next
    }
  }

  type Query<!T> = T -> bool

  function Empty<T>(): Table<T> {
    Table(map[], 0)
  }

  /** The first match with an id of at least from. */
  function FirstFrom<T>(t: Table<T>, q: Query<T>, from: nat): Option<nat>
    decreases t.next - from
  {
    if from >= t.next then None
    else if from in t.docs && q(t.docs[from]) then Some(from)
    else FirstFrom(t, q, from + 1)
  }

  /** get and _get_first: the document that was inserted first among those that match. */
  function First<T>(t: Table<T>, q: Query<T>): (r: Option<nat>)
    ensures r.Some? ==> r.value in t.docs && q(t.docs[r.value])
  {
    FirstIsLeast(t, q, 0);
    FirstFrom(t, q, 0)
  }

  function Insert<T>(t: Table<T>, doc: T): Table<T> {
    Table(t.docs[t.next := doc], t.next + 1)
  }

  function Update<T>(t: Table<T>, q: Query<T>, change: T -> T): Table<T> {
    t.(docs := map id | id in t.docs :: if q(t.docs[id]) then change(t.docs[id]) else t.docs[id])
  }

  /** upsert: every match is updated, and without a match the document is inserted. */
  function Upsert<T>(t: Table<T>, q: Query<T>, change: T -> T, doc: T): Table<T> {
    if First(t, q).Some? then Update(t, q, change) else Insert(t, doc)
  }

  function RemoveIds<T>(t: Table<T>, ids: set<nat>): Table<T> {
    t.(docs := t.docs - ids)
  }

  function Matches<T>(t: Table<T>, q: Query<T>): set<nat> {
    set id | id in t.docs && q(t.docs[id])
  }

  function RemoveWhere<T>(t: Table<T>, q: Query<T>): Table<T> {
    RemoveIds(t, Matches(t, q))
  }

  lemma {:induction false} FirstIsLeast<T>(t: Table<T>, q: Query<T>, from: nat)
    ensures match FirstFrom(t, q, from)
            case None => forall id :: from <= id < t.next && id in t.docs ==> !q(t.docs[id])
            case Some(k) =>
              && from <= k < t.next && k in t.docs && q(t.docs[k])
              && forall id :: from <= id < k && id in t.docs ==> !q(t.docs[id])
    decreases t.next - from
  {
    if from < t.next && !(from in t.docs && q(t.docs[from])) {
      FirstIsLeast(t, q, from + 1);
    }
  }

  /** First finds a match exactly when there is one, and then the oldest. */
  lemma FirstFinds<T>(t: Table<T>, q: Query<T>)
    requires t.Valid()
    ensures match First(t, q)
            case None => forall id :: id in t.docs ==> !q(t.docs[id])
            case Some(k) => k in t.docs && q(t.docs[k]) && forall id :: id in t.docs && q(t.docs[id]) ==> k <= id
  {
    FirstIsLeast(t, q, 0);
  }

  /** update_list_field: the value is put into, or taken out of, the list of the first match, and the result stored in every match. */
  function UpdateList<T>(t: Table<T>, q: Query<T>, get: T -> seq<string>, put: (T, seq<string>) -> T, value: string, add: bool): Table<T> {
    match First(t, q)
    case None => t
    case Some(id) =>
      var list := Changed(get(t.docs[id]), value, add);
      Update(t, q, doc => put(doc, list))
  }

  function RemoveOne(list: seq<string>, value: string): seq<string> {
    if list == [] then []
    else if list[0] == value then list[1..]
    else [list[0]] + RemoveOne(list[1..], value)
  }

  function Changed(list: seq<string>, value: string, add: bool): seq<string> {
    if add then (if value in list then list else list + [value]) else RemoveOne(list, value)
  }

  ghost predicate NoDuplicates(list: seq<string>) {
    forall i, j :: 0 <= i < j < |list| ==> list[i] != list[j]
  }

  /** Adding and removing keep a list free of duplicates, so that adding a value makes it a member and removing it makes it none. */
  lemma {:induction false} ChangedMembers(list: seq<string>, value: string, add: bool)
    requires NoDuplicates(list)
    ensures NoDuplicates(Changed(list, value, add))
    ensures forall x :: x in Changed(list, value, add) <==> if x == value then add else x in list
    decreases |list|
  {
    if !add && list != [] {
      var tail := list[1..];
      assert forall x :: x in list <==> x == list[0] || x in tail;
      assert list[0] !in tail;
      ChangedMembers(tail, value, false);
    }
  }
}
