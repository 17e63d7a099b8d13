/** Records, filters and modifiers shared by every strategy.
    A stored document is `DBRecord`: a required string `id` plus a bag of other
    fields that the storage layer copies without looking inside. `Select` is
    `Array.prototype.filter`, `Modify` is the `map` the strategies run over the
    matched documents, building `{ ...modifier(document), id: document.id }`. */
module Records {

  datatype Option<+T> = None | Some(value: T)

  /** Field values; the storage layer never interprets them. */
  datatype Json =
    | JNull
    | JBool(b: bool)
    | JNumber(n: real)
    | JString(s: string)
    | JArray(items: seq<Json>)
    | JObject(members: map<string, Json>)

  /** The fields of a document other than its id, i.e. `Omit<T, 'id'>`. */
  type Fields = m: map<string, Json> | "id" !in m witness map[]

  /** `{ id, ...fields }`. */
  datatype Record = Record(id: string, fields: Fields)

  /** `Filter<T>` and `SetCallback<T>`; both are pure callbacks here. */
  type Filter = Record -> bool
  type Modifier = Record -> Record

  /** `{ ...changed, id }`: the spread object with the id written last, so it wins. */
  function WithId(changed: Record, id: string): Record
  {
    Record(id, changed.fields)
  }

  /** The negated filter `document => !filter(document)`. */
  function Not(f: Filter): Filter
  {
    r => !f(r)
  }

  /** `s.filter(f)`. */
  function Select(s: seq<Record>, f: Filter): (r: seq<Record>)
    ensures |r| <= |s|
  {
    if s == [] then [] else (if f(s[0]) then [s[0]] else []) + Select(s[1..], f)
  }

  /** `s.map(document => ({ ...m(document), id: document.id }))`. */
  function Modify(s: seq<Record>, m: Modifier): (r: seq<Record>)
  {
    if s == [] then [] else [WithId(m(s[0]), s[0].id)] + Modify(s[1..], m)
  }

  function Ids(s: seq<Record>): seq<string>
  {
    if s == [] then [] else [s[0].id] + Ids(s[1..])
  }

  /** No two documents share an id. */
  ghost predicate UniqueIds(s: seq<Record>)
  {
    forall i, j :: 0 <= i < j < |s| ==> s[i].id != s[j].id
  }

  /** A filtered element is an element of the input that passes the filter, and
      every such element is kept. */
  lemma {:induction false} SelectMember(s: seq<Record>, f: Filter, x: Record)
    ensures x in Select(s, f) <==> x in s && f(x)
  {
    if s != [] {
      SelectMember(s[1..], f, x);
      assert s == [s[0]] + s[1..];
    }
  }

  /** Filtering distributes over concatenation: together with the one-element
      case this pins `Select` down as order-preserving. */
  lemma {:induction false} SelectAppend(a: seq<Record>, b: seq<Record>, f: Filter)
    ensures Select(a + b, f) == Select(a, f) + Select(b, f)
  {
    if a == [] {
      assert a + b == b;
    } else {
      var head := if f(a[0]) then [a[0]] else [];
      assert (a + b)[0] == a[0] && (a + b)[1..] == a[1..] + b;
      assert Select(a + b, f) == head + Select(a[1..] + b, f);
      SelectAppend(a[1..], b, f);
      assert Select(a, f) == head + Select(a[1..], f);
    }
  }

  /** Filtering one more element at the end of a scanned prefix. */
  lemma SelectSnoc(s: seq<Record>, i: nat, f: Filter)
    requires i < |s|
    ensures Select(s[..i + 1], f) == Select(s[..i], f) + (if f(s[i]) then [s[i]] else [])
  {
    assert s[..i + 1] == s[..i] + [s[i]];
    SelectAppend(s[..i], [s[i]], f);
  }

  /** The kept and the rejected elements together account for the whole input. */
  lemma {:induction false} SelectPartition(s: seq<Record>, f: Filter)
    ensures |Select(s, f)| + |Select(s, Not(f))| == |s|
  {
    if s != [] {
      SelectPartition(s[1..], f);
    }
  }

  /** Nothing passes exactly when no element matches. */
  lemma {:induction false} SelectEmptyIff(s: seq<Record>, f: Filter)
    ensures Select(s, f) == [] <==> forall x :: x in s ==> !f(x)
  {
    if s != [] {
      SelectEmptyIff(s[1..], f);
      assert s == [s[0]] + s[1..];
    }
  }

  /** The filter keeps the whole input exactly when every element matches. */
  lemma {:induction false} SelectAllIff(s: seq<Record>, f: Filter)
    ensures Select(s, f) == s <==> forall x :: x in s ==> f(x)
  {
    if s != [] {
      SelectAllIff(s[1..], f);
      assert s == [s[0]] + s[1..];
      if !f(s[0]) {
        assert |Select(s, f)| < |s|;
      }
    }
  }

  /** Each output document is the modifier's output for the input at the same
      position, carrying that input's id. */
  lemma {:induction false} ModifyAt(s: seq<Record>, m: Modifier)
    ensures |Modify(s, m)| == |s|
    ensures forall i :: 0 <= i < |s| ==>
              Modify(s, m)[i].id == s[i].id && Modify(s, m)[i].fields == m(s[i]).fields
  {
    if s != [] {
      ModifyAt(s[1..], m);
      forall i | 0 < i < |s|
        ensures Modify(s, m)[i] == Modify(s[1..], m)[i - 1]
      {
      }
    }
  }

  /** A modifier never changes ids: the output ids are the input ids. */
  lemma {:induction false} ModifyKeepsIds(s: seq<Record>, m: Modifier)
    ensures Ids(Modify(s, m)) == Ids(s)
  {
    if s != [] {
      ModifyKeepsIds(s[1..], m);
    }
  }

  /** Only the fields a modifier produces matter; whatever id it returns is
      discarded. */
  lemma {:induction false} ModifyIgnoresReturnedId(s: seq<Record>, m1: Modifier, m2: Modifier)
    requires forall r :: m1(r).fields == m2(r).fields
    ensures Modify(s, m1) == Modify(s, m2)
  {
    if s != [] {
      ModifyIgnoresReturnedId(s[1..], m1, m2);
    }
  }

  /** The first element of a list occurs in any rearrangement `b` of it;
      taking it out of `b` leaves a rearrangement of the rest. */
  lemma TakeOut(a: seq<Record>, b: seq<Record>) returns (k: nat)
    requires a != [] && multiset(a) == multiset(b)
    ensures k < |b| && b[k] == a[0]
    ensures multiset(a[1..]) == multiset(b[..k] + b[k + 1..])
  {
    var x := a[0];
    assert x in multiset(b);
    k :| 0 <= k < |b| && b[k] == x;
    var rest := b[..k] + b[k + 1..];
    assert b == b[..k] + [x] + b[k + 1..];
    assert multiset(b) == multiset(b[..k]) + multiset{x} + multiset(b[k + 1..]);
    assert multiset(rest) == multiset(b[..k]) + multiset(b[k + 1..]);
    assert a == [x] + a[1..];
    assert multiset(a) == multiset{x} + multiset(a[1..]);
    forall y ensures multiset(a[1..])[y] == multiset(rest)[y] {
      assert multiset(a)[y] == multiset(b)[y];
    }
  }

  /** Filtering a rearrangement of a list gives a rearrangement of the
      filtered list. */
  lemma {:induction false} SelectPermutation(a: seq<Record>, b: seq<Record>, f: Filter)
    requires multiset(a) == multiset(b)
    ensures multiset(Select(a, f)) == multiset(Select(b, f))
  {
    if a == [] {
      assert |b| == |multiset(b)| == 0;
    } else {
      var k := TakeOut(a, b);
      var before, after := b[..k], b[k + 1..];
      assert b == before + ([a[0]] + after);
      SelectPermutation(a[1..], before + after, f);
      SelectAppend(before, [a[0]] + after, f);
      SelectAppend([a[0]], after, f);
      SelectAppend(before, after, f);
      assert a == [a[0]] + a[1..];
      SelectAppend([a[0]], a[1..], f);
    }
  }

  /** Modifying a rearrangement of a list gives a rearrangement of the
      modified list. */
  lemma {:induction false} ModifyPermutation(a: seq<Record>, b: seq<Record>, m: Modifier)
    requires multiset(a) == multiset(b)
    ensures multiset(Modify(a, m)) == multiset(Modify(b, m))
  {
    if a == [] {
      assert |b| == |multiset(b)| == 0;
    } else {
      var k := TakeOut(a, b);
      var before, after := b[..k], b[k + 1..];
      var head := Modify([a[0]], m);
      assert b == before + ([a[0]] + after);
      ModifyPermutation(a[1..], before + after, m);
      ModifyAppend(before, [a[0]] + after, m);
      ModifyAppend([a[0]], after, m);
      ModifyAppend(before, after, m);
      assert Modify(b, m) == Modify(before, m) + (head + Modify(after, m));
      assert multiset(Modify(b, m)) == multiset(Modify(before + after, m)) + multiset(head);
      assert Modify(a, m) == head + Modify(a[1..], m);
    }
  }

  /** Modifying distributes over concatenation. */
  lemma {:induction false} ModifyAppend(a: seq<Record>, b: seq<Record>, m: Modifier)
    ensures Modify(a + b, m) == Modify(a, m) + Modify(b, m)
  {
    if a == [] {
      assert a + b == b;
    } else {
      assert (a + b)[1..] == a[1..] + b;
      ModifyAppend(a[1..], b, m);
    }
  }
}
