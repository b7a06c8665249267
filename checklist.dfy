/**
 * The checklist view: the assignee choices, a new item, the checkbox
 * transition and delete by id. The view's handlers apply these to
 * `db.checklists` (see `Store.Db`).
 */
module Checklist {
  import opened Util
  import opened Text
  import opened Entities

  /** The roles offered in the assignee dropdown. */
  predicate Assignable(u: User) {
    u.role == "staff" || u.role == "leader"
  }

  /** The users the assignee dropdown lists: the staff and leaders, in the order of `db.users`. */
  function AssigneeOptions(users: seq<User>): (r: seq<User>)
    ensures forall u :: u in r <==> u in users && Assignable(u)
    ensures |r| <= |users|
  {
    if users == [] then []
    else
      var n := |users| - 1;
      AssigneeOptions(users[..n]) + (if Assignable(users[n]) then [users[n]] else [])
  }

  /** The dropdown keeps the order of `db.users`: listing two user lists one after the other lists their choices one after the other. */
  lemma {:induction false} AssigneeOptionsAppend(a: seq<User>, b: seq<User>)
    ensures AssigneeOptions(a + b) == AssigneeOptions(a) + AssigneeOptions(b)
  {
    if b != [] {
      var n := |b| - 1;
      assert (a + b)[..|a + b| - 1] == a + b[..n];
      AssigneeOptionsAppend(a, b[..n]);
    } else {
      assert a + b == a;
    }
  }

  /**
   * The item the add button pushes, or `None` when the trimmed title is
   * blank (the handler then only shows a message). Title and description
   * are stored trimmed; the item starts open with no completion stamp.
   */
  function NewItem(itemId: string, projectId: string, title: string, description: string,
                   imageDataUrl: string, writerId: string, assigneeId: string, createdAt: string): (r: Option<ChecklistItem>)
    ensures r.None? <==> IsBlank(title)
    ensures r.Some? ==>
      && r.value.itemId == itemId && r.value.projectId == projectId
      && r.value.title == Trim(title) && r.value.title != []
      && r.value.description == Trim(description)
      && r.value.imageDataUrl == imageDataUrl
      && r.value.writerId == writerId && r.value.assigneeId == assigneeId
      && r.value.createdAt == createdAt
      && r.value.status == Open && r.value.doneBy == "" && r.value.doneAt == ""
  {
    var t := Trim(title);
    if t == [] then None
    else Some(ChecklistItem(
      itemId := itemId, projectId := projectId, title := t,
      description := Trim(description), imageDataUrl := imageDataUrl,
      writerId := writerId, assigneeId := assigneeId, status := Open,
      createdAt := createdAt, doneBy := "", doneAt := ""))
  }

  /** A new item's title and description need no further trimming. */
  lemma NewItemTrimmed(itemId: string, projectId: string, title: string, description: string,
                       imageDataUrl: string, writerId: string, assigneeId: string, createdAt: string)
    requires !IsBlank(title)
    ensures var it := NewItem(itemId, projectId, title, description, imageDataUrl, writerId, assigneeId, createdAt).value;
      Trim(it.title) == it.title && Trim(it.description) == it.description
  {
    TrimIdempotent(title);
    TrimIdempotent(description);
  }

  /** The stamps of an item agree with its status: an open item carries no completion stamp. */
  predicate ItemStampsAgree(it: ChecklistItem) {
    it.status == Open ==> it.doneBy == "" && it.doneAt == ""
  }

  /** The checkbox's change handler: checked marks the item done by `uid` at `now`, unchecked reopens it and clears the stamp. */
  function Toggled(it: ChecklistItem, checked: bool, uid: string, now: string): (r: ChecklistItem)
    ensures checked ==> r.status == Done && r.doneBy == uid && r.doneAt == now
    ensures !checked ==> r.status == Open && r.doneBy == "" && r.doneAt == ""
    ensures r.(status := it.status, doneBy := it.doneBy, doneAt := it.doneAt) == it
  {
    if checked then it.(status := Done, doneBy := uid, doneAt := now)
    else it.(status := Open, doneBy := "", doneAt := "")
  }

  /** Every checkbox change leaves an item whose stamps agree with its status. */
  lemma ToggledStampsAgree(it: ChecklistItem, checked: bool, uid: string, now: string)
    ensures ItemStampsAgree(Toggled(it, checked, uid, now))
  {
  }

  /**
   * Checking and then unchecking an item leaves no trace of the completion:
   * the item is the open item it was, or would have been had it never been
   * checked.
   */
  lemma CheckThenUncheck(it: ChecklistItem, uid: string, now: string)
    ensures Toggled(Toggled(it, true, uid, now), false, uid, now) == Toggled(it, false, uid, now)
    ensures it.status == Open && ItemStampsAgree(it) ==> Toggled(Toggled(it, true, uid, now), false, uid, now) == it
  {
  }

  /** `db.checklists.filter(x => x.itemId !== id)`: every item but those with id `id`, in order. */
  function WithoutItem(items: seq<ChecklistItem>, id: string): (r: seq<ChecklistItem>)
    ensures forall x :: x in r <==> x in items && x.itemId != id
    ensures |r| <= |items|
  {
    if items == [] then []
    else
      var n := |items| - 1;
      WithoutItem(items[..n], id) + (if items[n].itemId != id then [items[n]] else [])
  }

  /** Deleting from two lists one after the other deletes from each: the kept items stay in their order. */
  lemma {:induction false} WithoutItemAppend(a: seq<ChecklistItem>, b: seq<ChecklistItem>, id: string)
    ensures WithoutItem(a + b, id) == WithoutItem(a, id) + WithoutItem(b, id)
  {
    if b != [] {
      var n := |b| - 1;
      assert (a + b)[..|a + b| - 1] == a + b[..n];
      WithoutItemAppend(a, b[..n], id);
    } else {
      assert a + b == a;
    }
  }

  /** Deleting an id no item has changes nothing. */
  lemma {:induction false} WithoutAbsentItem(items: seq<ChecklistItem>, id: string)
    requires forall x :: x in items ==> x.itemId != id
    ensures WithoutItem(items, id) == items
  {
    if items != [] {
      var n := |items| - 1;
      var init := items[..n];
      assert items == init + [items[n]];
      assert items[n] in items;
      assert forall x :: x in init ==> x in items;
      WithoutAbsentItem(init, id);
    }
  }

  /** The number of items with id `id`. */
  function CountId(items: seq<ChecklistItem>, id: string): nat {
    if items == [] then 0
    else CountId(items[..|items| - 1], id) + (if items[|items| - 1].itemId == id then 1 else 0)
  }

  /** Deleting removes exactly the items that carry the id: the list shrinks by their number. */
  lemma {:induction false} WithoutItemLength(items: seq<ChecklistItem>, id: string)
    ensures |WithoutItem(items, id)| == |items| - CountId(items, id)
  {
    if items != [] {
      WithoutItemLength(items[..|items| - 1], id);
    }
  }

  /** Deleting twice deletes nothing more. */
  lemma WithoutItemIdempotent(items: seq<ChecklistItem>, id: string)
    ensures WithoutItem(WithoutItem(items, id), id) == WithoutItem(items, id)
  {
    WithoutAbsentItem(WithoutItem(items, id), id);
  }
}
