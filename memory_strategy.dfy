/** The in-memory cache of one collection: a list of documents that every
    mutation replaces as a whole. The repository carries two identical copies
    of this class (the one at the top of `src` and the one the live
    collection imports); both are this class. */
module MemoryStrategy {
  import opened Records

  class MemoryStore {
    var data: seq<Record>

    /** `this.data = data || []`: an absent list starts the cache empty. */
    constructor(initial: Option<seq<Record>>)
      ensures initial.Some? ==> data == initial.value
      ensures initial.None? ==> data == []
    {
      data := if initial.Some? then initial.value else [];
    }

    /** `[...this.data]`: copies the list, not the documents in it (see the
        README on aliasing). */
    method GetAll() returns (documents: seq<Record>)
      ensures documents == data
    {
      documents := data;
    }

    /** `this.data.filter(callback)`. */
    method GetData(callback: Filter) returns (documents: seq<Record>)
      ensures documents == Select(data, callback)
    {
      documents := Select(data, callback);
    }

    /** Appends the document and hands it back. */
    method Insert(newDocument: Record) returns (inserted: Record)
      modifies this
      ensures data == old(data) + [newDocument]
      ensures inserted == newDocument
    {
      data := data + [newDocument];
      inserted := newDocument;
    }

    /** Replaces the cache by the matched documents only, each modified with
        its own id written back; the documents that do not match are dropped
        (see `UpdateKeepsOnlyMatches`). */
    method Update(filter: Filter, modifier: Modifier)
      modifies this
      ensures data == Modify(Select(old(data), filter), modifier)
    {
      data := Modify(Select(data, filter), modifier);
    }

    /** Keeps the documents the filter rejects, and always answers `true`. */
    method Delete(filter: Filter) returns (done: bool)
      modifies this
      ensures data == Select(old(data), Not(filter))
      ensures done
    {
      data := Select(data, Not(filter));
      done := true;
    }
  }

  // ---- What the cache holds after each mutation ----

  /** After an update the cache has one document per match, in the order of
      the matches, each carrying the matched document's id and the fields the
      modifier produced for it. */
  lemma {:induction false} UpdateShape(data: seq<Record>, filter: Filter, modifier: Modifier)
    ensures |Modify(Select(data, filter), modifier)| == |Select(data, filter)|
    ensures forall i :: 0 <= i < |Select(data, filter)| ==>
              && Modify(Select(data, filter), modifier)[i].id == Select(data, filter)[i].id
              && Modify(Select(data, filter), modifier)[i].fields == modifier(Select(data, filter)[i]).fields
  {
    ModifyAt(Select(data, filter), modifier);
  }

  /** In a cache whose ids are unique, an update drops every document the
      filter rejects: no document left afterwards carries its id. */
  lemma UpdateKeepsOnlyMatches(data: seq<Record>, filter: Filter, modifier: Modifier, x: Record)
    requires UniqueIds(data) && x in data && !filter(x)
    ensures forall y :: y in Modify(Select(data, filter), modifier) ==> y.id != x.id
  {
    var kept := Select(data, filter);
    var updated := Modify(kept, modifier);
    ModifyAt(kept, modifier);
    forall y | y in updated ensures y.id != x.id {
      var i :| 0 <= i < |updated| && updated[i] == y;
      SelectMember(data, filter, kept[i]);
      var a :| 0 <= a < |data| && data[a] == kept[i];
      var b :| 0 <= b < |data| && data[b] == x;
      assert filter(data[a]) && !filter(data[b]);
      assert a < b || b < a;
    }
  }

  /** An update leaves an empty cache empty, and one with no match becomes
      empty. */
  lemma UpdateWithoutMatches(data: seq<Record>, filter: Filter, modifier: Modifier)
    requires forall x :: x in data ==> !filter(x)
    ensures Modify(Select(data, filter), modifier) == []
  {
    SelectEmptyIff(data, filter);
  }

  /** The id a modifier returns never reaches the cache. */
  lemma UpdateIgnoresModifierId(data: seq<Record>, filter: Filter, modifier: Modifier, id: string)
    ensures Modify(Select(data, filter), modifier)
         == Modify(Select(data, filter), r => WithId(modifier(r), id))
  {
    ModifyIgnoresReturnedId(Select(data, filter), modifier, r => WithId(modifier(r), id));
  }
}
