/** The users table: items under their primary key, and two secondary indexes that every write keeps up to date. */
module Table {
  import opened Prelude

  /** One stored item, as reading it back yields it: an attribute that is not stored reads as the empty text. */
  datatype Item = Item(
    id: string, name: string, document: string, documentType: string, email: string, phoneNumber: string,
    password: string, roles: seq<string>, createdAt: string, updatedAt: string)

  type Items = map<string, Item>

  /** The attributes that have an index. */
  datatype Attribute = ByEmail | ByDocument

  function KeyOf(item: Item, attribute: Attribute): string {
    match attribute
    case ByEmail => item.email
    case ByDocument => item.document
  }

  ghost predicate Keyed(items: Items) {
    forall id :: id in items ==> items[id].id == id
  }

  // ---- What the calls of the database client do to the items ----

  /** PutItem under the condition attribute_not_exists(id). */
  function PutIfAbsent(items: Items, item: Item): Items {
    if item.id in items then items else items[item.id := item]
  }

  /** UpdateItem with a SET of every attribute but the creation time. It makes the item when there is none,
      and then without a creation time. */
  function Upsert(items: Items, item: Item): Items {
    items[item.id := item.(createdAt := if item.id in items then items[item.id].createdAt else "")]
  }

  function Remove(items: Items, id: string): Items {
    items - {id}
  }

  /** The identifiers of the items that hold `key` under the attribute. */
  ghost function Matching(items: Items, attribute: Attribute, key: string): set<string> {
    set id | id in items && KeyOf(items[id], attribute) == key
  }

  /** What a query with Limit 1 answers: some matching item. When several match, the database is free to
      answer any of them; `pick` says which one it answers. */
  ghost function QueryOne(items: Items, attribute: Attribute, key: string, pick: string): (r: Option<Item>)
    ensures r.None? <==> forall id :: id in items ==> KeyOf(items[id], attribute) != key
    ensures r.Some? ==> KeyOf(r.value, attribute) == key && exists id :: id in items && items[id] == r.value
  {
    var ids := Matching(items, attribute, key);
    if ids == {} then
      assert forall id :: id in items && KeyOf(items[id], attribute) == key ==> id in ids;
      None
    else if pick in ids then Some(items[pick])
    else var id :| id in ids; Some(items[id])
  }

  type Index = map<string, set<string>>

  function Listed(index: Index, key: string): set<string> {
    if key in index then index[key] else {}
  }

  function Enlist(index: Index, key: string, id: string): Index {
    index[key := Listed(index, key) + {id}]
  }

  function Unlist(index: Index, key: string, id: string): Index {
    index[key := Listed(index, key) - {id}]
  }

  /** The index lists, under each key, exactly the items that hold the key. */
  ghost predicate Indexes(index: Index, items: Items, attribute: Attribute) {
    forall key, id :: id in Listed(index, key) <==> id in items && KeyOf(items[id], attribute) == key
  }

  lemma IndexesAfterRemoval(index: Index, items: Items, attribute: Attribute, id: string)
    requires Indexes(index, items, attribute) && id in items
    ensures Indexes(Unlist(index, KeyOf(items[id], attribute), id), Remove(items, id), attribute)
  {
    var index' := Unlist(index, KeyOf(items[id], attribute), id);
    var items' := Remove(items, id);
    forall key, i ensures i in Listed(index', key) <==> i in items' && KeyOf(items'[i], attribute) == key {
      assert i in Listed(index, key) <==> i in items && KeyOf(items[i], attribute) == key;
    }
  }

  lemma IndexesAfterInsertion(index: Index, items: Items, attribute: Attribute, item: Item)
    requires Indexes(index, items, attribute) && item.id !in items
    ensures Indexes(Enlist(index, KeyOf(item, attribute), item.id), items[item.id := item], attribute)
  {
    var index' := Enlist(index, KeyOf(item, attribute), item.id);
    var items' := items[item.id := item];
    forall key, i ensures i in Listed(index', key) <==> i in items' && KeyOf(items'[i], attribute) == key {
      assert i in Listed(index, key) <==> i in items && KeyOf(items[i], attribute) == key;
    }
  }

  class UserTable {
    var items: Items
    var emailIndex: Index
    var documentIndex: Index

    ghost predicate Valid()
      reads this
    {
      Keyed(items) && Indexes(emailIndex, items, ByEmail) && Indexes(documentIndex, items, ByDocument)
    }

    constructor ()
      ensures Valid() && items == map[]
    {
      items, emailIndex, documentIndex := map[], map[], map[];
    }

    /** Takes the item out, if it is there, and its index entries with it. */
    method TakeOut(id: string)
      requires Valid()
      modifies this
      ensures Valid() && items == Remove(old(items), id)
    {
      if id in items {
        IndexesAfterRemoval(emailIndex, items, ByEmail, id);
        IndexesAfterRemoval(documentIndex, items, ByDocument, id);
        emailIndex := Unlist(emailIndex, items[id].email, id);
        documentIndex := Unlist(documentIndex, items[id].document, id);
        items := items - {id};
      } else {
        assert items == Remove(items, id);
      }
    }

    /** Puts in an item whose identifier is not in use, and its index entries with it. */
    method PutIn(item: Item)
      requires Valid() && item.id !in items
      modifies this
      ensures Valid() && items == old(items)[item.id := item]
    {
      IndexesAfterInsertion(emailIndex, items, ByEmail, item);
      IndexesAfterInsertion(documentIndex, items, ByDocument, item);
      emailIndex := Enlist(emailIndex, item.email, item.id);
      documentIndex := Enlist(documentIndex, item.document, item.id);
      items := items[item.id := item];
    }

    method PutItem(item: Item) returns (conditionHeld: bool)
      requires Valid()
      modifies this
      ensures Valid()
      ensures conditionHeld == (item.id !in old(items))
      ensures items == PutIfAbsent(old(items), item)
    {
      conditionHeld := item.id !in items;
      if conditionHeld {
        PutIn(item);
      }
    }

    method UpdateItem(item: Item)
      requires Valid()
      modifies this
      ensures Valid() && items == Upsert(old(items), item)
    {
      var createdAt := if item.id in items then items[item.id].createdAt else "";
      TakeOut(item.id);
      PutIn(item.(createdAt := createdAt));
      assert items == Upsert(old(items), item);
    }

    method DeleteItem(id: string)
      requires Valid()
      modifies this
      ensures Valid() && items == Remove(old(items), id)
    {
      TakeOut(id);
    }

    method GetItem(id: string) returns (r: Option<Item>)
      ensures r == if id in items then Some(items[id]) else None
    {
      r := if id in items then Some(items[id]) else None;
    }

    /** A query of one index with Limit 1; `pick` records the free choice that was made. */
    method Query(attribute: Attribute, key: string) returns (r: Option<Item>, ghost pick: string)
      requires Valid()
      ensures r == QueryOne(items, attribute, key, pick)
      ensures r.None? <==> forall id :: id in items ==> KeyOf(items[id], attribute) != key
      ensures r.Some? ==> r.value.id in items && items[r.value.id] == r.value && KeyOf(r.value, attribute) == key
    {
      var ids := Listed(if attribute == ByEmail then emailIndex else documentIndex, key);
      assert ids == Matching(items, attribute, key);
      if ids == {} {
        r, pick := None, "";
      } else {
        var id :| id in ids;
        r, pick := Some(items[id]), id;
      }
    }

    /** A scan of up to `limit` items, in no particular order. */
    method Scan(limit: nat) returns (r: seq<Item>)
      requires Valid()
      ensures |r| == if limit < |items| then limit else |items|
      ensures forall i :: 0 <= i < |r| ==> r[i].id in items && items[r[i].id] == r[i]
      ensures forall i, j :: 0 <= i < j < |r| ==> r[i].id != r[j].id
    {
      r := [];
      var left := items.Keys;
      while left != {} && |r| < limit
        invariant left <= items.Keys
        invariant |r| + |left| == |items| && |r| <= limit
        invariant forall i :: 0 <= i < |r| ==> r[i].id in items && items[r[i].id] == r[i] && r[i].id !in left
        invariant forall i, j :: 0 <= i < j < |r| ==> r[i].id != r[j].id
        decreases left
      {
        var id :| id in left;
        left := left - {id};
        r := r + [items[id]];
      }
    }
  }
}
