/** The SQL that app.py runs against the shared `shopping_list` table,
    written out over the table's rows in insertion order. */
module ShoppingList {
  import opened Rows
  import Seqs

  /** The pre-insert check of add_to_list: an unpurchased row with this name exists. */
  function HasUnpurchased(items: seq<Item>, name: string): (found: bool)
    ensures found <==> exists x :: x in ListView(items) && x.name == name
  {
    exists k :: 0 <= k < |items| && items[k].name == name && !items[k].purchased
  }

  /** The invariant add_to_list's check maintains: one unpurchased row per name. */
  ghost predicate AtMostOneUnpurchased(items: seq<Item>)
  {
    forall i, j :: 0 <= i < j < |items| && items[i].name == items[j].name ==>
      items[i].purchased || items[j].purchased
  }

  /** Auto-increment ids and insertion timestamps both grow along the table. */
  ghost predicate AddedInOrder(items: seq<Item>)
  {
    forall i, j :: 0 <= i < j < |items| ==>
      items[i].id < items[j].id && items[i].dateAdded < items[j].dateAdded
  }

  /** `UPDATE shopping_list SET purchased = TRUE WHERE id = %s`. */
  function SetPurchased(items: seq<Item>, id: int): (r: seq<Item>)
    ensures |r| == |items|
    ensures forall k :: 0 <= k < |items| ==>
      && r[k].id == items[k].id
      && r[k].name == items[k].name
      && r[k].dateAdded == items[k].dateAdded
      && r[k].purchased == (items[k].purchased || items[k].id == id)
  {
    if items == [] then []
    else
      var head := if items[0].id == id then items[0].(purchased := true) else items[0];
      [head] + SetPurchased(items[1..], id)
  }

  /** `WHERE purchased = FALSE`, keeping table order. */
  function Unpurchased(items: seq<Item>): (r: seq<Item>)
    ensures |r| <= |items|
    ensures forall x {:trigger x in r} :: x in r <==> x in items && !x.purchased
  {
    if items == [] then []
    else
      assert items == [items[0]] + items[1..];
      (if items[0].purchased then [] else [items[0]]) + Unpurchased(items[1..])
  }

  /** The get_shopping_list query: unpurchased rows, `ORDER BY date_added DESC`. */
  function ListView(items: seq<Item>): (r: seq<Item>)
    ensures forall x :: x in r <==> x in items && !x.purchased
  {
    var rows := Unpurchased(items);
    var r := Seqs.Reverse(rows);
    assert forall x :: x in r <==> x in multiset(rows);
    assert forall x :: x in multiset(rows) <==> x in rows;
    r
  }

  lemma ConsInOrder(head: Item, rest: seq<Item>)
    requires AddedInOrder(rest)
    requires forall k :: 0 <= k < |rest| ==> head.id < rest[k].id && head.dateAdded < rest[k].dateAdded
    ensures AddedInOrder([head] + rest)
  {
    var r := [head] + rest;
    forall i, j | 0 <= i < j < |r|
      ensures r[i].id < r[j].id && r[i].dateAdded < r[j].dateAdded
    {
      assert r[j] == rest[j - 1];
      if i > 0 {
        assert r[i] == rest[i - 1];
      }
    }
  }

  lemma {:induction false} UnpurchasedInOrder(items: seq<Item>)
    requires AddedInOrder(items)
    ensures AddedInOrder(Unpurchased(items))
  {
    if items != [] {
      var tail := items[1..];
      var rest := Unpurchased(tail);
      UnpurchasedInOrder(tail);
      forall k | 0 <= k < |rest|
        ensures items[0].id < rest[k].id && items[0].dateAdded < rest[k].dateAdded
      {
        assert rest[k] in rest;
        assert rest[k] in tail;
        var m :| 0 <= m < |tail| && tail[m] == rest[k];
        assert items[m + 1] == rest[k];
      }
      if !items[0].purchased {
        ConsInOrder(items[0], rest);
      }
    }
  }

  /** The view holds exactly the unpurchased rows, newest first. */
  lemma ListViewNewestFirst(items: seq<Item>)
    requires AddedInOrder(items)
    ensures forall x :: x in ListView(items) <==> x in items && !x.purchased
    ensures forall i, j :: 0 <= i < j < |ListView(items)| ==>
      ListView(items)[i].dateAdded > ListView(items)[j].dateAdded
  {
    UnpurchasedInOrder(items);
  }

  lemma {:induction false} UnpurchasedAppend(items: seq<Item>, x: Item)
    ensures Unpurchased(items + [x]) == Unpurchased(items) + (if x.purchased then [] else [x])
  {
    if items == [] {
      assert items + [x] == [x];
    } else {
      assert (items + [x])[1..] == items[1..] + [x];
      UnpurchasedAppend(items[1..], x);
    }
  }

  /** A successful add puts the new row at the top of the view. */
  lemma AddShowsFirst(items: seq<Item>, x: Item)
    requires !x.purchased
    ensures ListView(items + [x]) == [x] + ListView(items)
  {
    UnpurchasedAppend(items, x);
    Seqs.ReverseAppend(Unpurchased(items), x);
  }

  /** After a successful add, a second add of the same name is refused. */
  lemma AddThenAddRefused(items: seq<Item>, x: Item)
    requires !x.purchased
    ensures HasUnpurchased(items + [x], x.name)
  {
    assert (items + [x])[|items|] == x;
  }

  /** Inserting only when the check fails keeps one unpurchased row per name. */
  lemma AddKeepsAtMostOne(items: seq<Item>, x: Item)
    requires AtMostOneUnpurchased(items)
    requires !HasUnpurchased(items, x.name)
    ensures AtMostOneUnpurchased(items + [x])
  {
  }

  lemma MarkKeepsInvariants(items: seq<Item>, id: int)
    ensures AtMostOneUnpurchased(items) ==> AtMostOneUnpurchased(SetPurchased(items, id))
    ensures AddedInOrder(items) ==> AddedInOrder(SetPurchased(items, id))
  {
  }

  /** Marking a row purchased twice is the same as marking it once. */
  lemma MarkIdempotent(items: seq<Item>, id: int)
    ensures SetPurchased(SetPurchased(items, id), id) == SetPurchased(items, id)
  {
  }

  /** An id that names no row changes nothing. */
  lemma MarkUnknownIsNoOp(items: seq<Item>, id: int)
    requires forall k :: 0 <= k < |items| ==> items[k].id != id
    ensures SetPurchased(items, id) == items
  {
  }

  /** Marking removes from the view the row with that id, and only it. */
  lemma MarkLeavesView(items: seq<Item>, id: int)
    ensures forall x :: x in ListView(SetPurchased(items, id)) <==>
      x in ListView(items) && x.id != id
  {
  }
}
