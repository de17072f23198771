/**
 * The conversation history and the node/edge diff of the trading assistant
 * (src/services/tradingAssistantService.ts).
 *
 * The history is a static field of `TradingAssistantService` in the source; here it is a field
 * of one service object. `getDiff` compares two lists of items by id; an item is its id and the
 * rest of its content, and two items differ structurally when their contents differ. The diff is
 * returned as a record of the three id lists rather than as its JSON text.
 */
module TradingAssistant {
  import opened Wrappers

  datatype Role = User | Assistant
  datatype Message = Message(role: Role, content: string)

  /** How many messages the history keeps. */
  const MaxHistory := 20

  /** The last `MaxHistory` messages of `h`, or all of them when there are fewer. */
  function Recent(h: seq<Message>): (r: seq<Message>)
    ensures |r| == if |h| > MaxHistory then MaxHistory else |h|
    ensures forall i :: 0 <= i < |r| ==> r[i] == h[|h| - |r| + i]
  {
    if |h| > MaxHistory then h[|h| - MaxHistory..] else h
  }

  /** Trimming after every push keeps the same messages as trimming once at the end. */
  lemma {:induction false} RecentSnoc(h: seq<Message>, m: Message)
    ensures Recent(Recent(h) + [m]) == Recent(h + [m])
  {
    var a := Recent(Recent(h) + [m]);
    var b := Recent(h + [m]);
    assert |a| == |b|;
    forall i | 0 <= i < |a| ensures a[i] == b[i] {
      if i < |a| - 1 {
        assert a[i] == (Recent(h) + [m])[|Recent(h)| + 1 - |a| + i] == h[|h| - |a| + 1 + i];
      }
    }
  }

  /** The history after a run of `addMessage` calls. */
  function AddAll(h: seq<Message>, ms: seq<Message>): seq<Message> {
    if ms == [] then h else Recent(AddAll(h, ms[..|ms| - 1]) + [ms[|ms| - 1]])
  }

  /** After any run of `addMessage` calls the history holds the 20 most recent messages, in order. */
  lemma {:induction false} AddAllRecent(h: seq<Message>, ms: seq<Message>)
    requires |h| <= MaxHistory
    ensures AddAll(h, ms) == Recent(h + ms)
  {
    if ms != [] {
      var prefix := ms[..|ms| - 1];
      var m := ms[|ms| - 1];
      assert ms == prefix + [m];
      calc {
        AddAll(h, ms);
        Recent(AddAll(h, prefix) + [m]);
        { AddAllRecent(h, prefix); }
        Recent(Recent(h + prefix) + [m]);
        { RecentSnoc(h + prefix, m); }
        Recent(h + prefix + [m]);
        { assert h + prefix + [m] == h + ms; }
        Recent(h + ms);
      }
    } else {
      assert h + ms == h;
    }
  }

  class TradingAssistantService {
    var conversationHistory: seq<Message>

    /** The history never holds more than `MaxHistory` messages. */
    ghost predicate Valid()
      reads this
    {
      |conversationHistory| <= MaxHistory
    }

    constructor()
      ensures conversationHistory == [] && Valid()
    {
      conversationHistory := [];
    }

    /** `addMessage(role, content)`: push, then keep only the 20 most recent messages. */
    method AddMessage(role: Role, content: string)
      requires Valid()
      modifies this
      ensures conversationHistory == Recent(old(conversationHistory) + [Message(role, content)]) && Valid()
      ensures |conversationHistory| == if |old(conversationHistory)| < MaxHistory then |old(conversationHistory)| + 1 else MaxHistory
      ensures conversationHistory[|conversationHistory| - 1] == Message(role, content)
    {
      conversationHistory := conversationHistory + [Message(role, content)];
      if |conversationHistory| > MaxHistory {
        conversationHistory := conversationHistory[|conversationHistory| - MaxHistory..];
      }
    }

    /** `getConversationHistory()`: a copy of the history, which stays as it is. */
    method GetConversationHistory() returns (h: seq<Message>)
      ensures h == conversationHistory
    {
      h := conversationHistory;
    }

    /** `clearConversationHistory()` */
    method ClearConversationHistory()
      modifies this
      ensures conversationHistory == [] && Valid()
    {
      conversationHistory := [];
    }
  }

  // ---------------------------------------------------------------- getDiff

  /** A node or an edge: its id, and the JSON text of the item as a whole. */
  datatype Item = Item(id: string, json: string)

  /** `items.some(item => item.id === id)` */
  predicate HasId(items: seq<Item>, id: string) {
    exists i :: 0 <= i < |items| && items[i].id == id
  }

  lemma HasIdCons(items: seq<Item>, id: string)
    requires items != []
    ensures HasId(items, id) <==> items[0].id == id || HasId(items[1..], id)
  {
    if HasId(items, id) && items[0].id != id {
      var i :| 0 <= i < |items| && items[i].id == id;
      assert items[1..][i - 1].id == id;
    }
    if HasId(items[1..], id) {
      var i :| 0 <= i < |items[1..]| && items[1..][i].id == id;
      assert items[i + 1].id == id;
    }
  }

  /** `items.find(item => item.id === id)`: the first item with that id. */
  function FindById(items: seq<Item>, id: string): (r: Option<Item>)
    ensures r.Some? <==> HasId(items, id)
    ensures r.Some? ==> exists k :: 0 <= k < |items| && items[k] == r.value && r.value.id == id
                                    && forall j :: 0 <= j < k ==> items[j].id != id
  {
    if items == [] then None
    else if items[0].id == id then Some(items[0])
    else
      HasIdCons(items, id);
      var r := FindById(items[1..], id);
      if r.Some? then
        var k :| 0 <= k < |items[1..]| && items[1..][k] == r.value && r.value.id == id
                 && forall j :: 0 <= j < k ==> items[1..][j].id != id;
        assert items[k + 1] == r.value && forall j :: 0 <= j < k + 1 ==> items[j].id != id by {
          forall j | 0 <= j < k + 1 ensures items[j].id != id {
            if j > 0 { assert items[j] == items[1..][j - 1]; }
          }
        }
        r
      else r
  }

  /** The ids of `updated` absent from `original`, in `updated` order. */
  function AddedIds(original: seq<Item>, updated: seq<Item>): (r: seq<string>)
    ensures forall x :: x in r <==> HasId(updated, x) && !HasId(original, x)
  {
    if updated == [] then []
    else
      var rest := AddedIds(original, updated[1..]);
      forall x ensures HasId(updated, x) <==> updated[0].id == x || HasId(updated[1..], x) {
        HasIdCons(updated, x);
      }
      if !HasId(original, updated[0].id) then [updated[0].id] + rest else rest
  }

  /** The ids of `original` absent from `updated`, in `original` order. */
  function RemovedIds(original: seq<Item>, updated: seq<Item>): (r: seq<string>)
    ensures forall x :: x in r <==> HasId(original, x) && !HasId(updated, x)
  {
    if original == [] then []
    else
      var rest := RemovedIds(original[1..], updated);
      forall x ensures HasId(original, x) <==> original[0].id == x || HasId(original[1..], x) {
        HasIdCons(original, x);
      }
      if !HasId(updated, original[0].id) then [original[0].id] + rest else rest
  }

  /** An item of `updated` whose first same-id item in `original` has a different JSON text. */
  predicate Changed(original: seq<Item>, u: Item) {
    var o := FindById(original, u.id);
    o.Some? && o.value.json != u.json
  }

  /** The ids of the changed items of `updated`, in `updated` order. */
  function ModifiedIds(original: seq<Item>, updated: seq<Item>): (r: seq<string>)
    ensures forall x :: x in r <==> exists i :: 0 <= i < |updated| && updated[i].id == x && Changed(original, updated[i])
  {
    if updated == [] then []
    else
      var rest := ModifiedIds(original, updated[1..]);
      assert forall i :: 1 <= i < |updated| ==> updated[i] == updated[1..][i - 1];
      if Changed(original, updated[0]) then [updated[0].id] + rest else rest
  }

  datatype Diff = Diff(added: seq<string>, removed: seq<string>, modified: seq<string>)

  /**
   * `getDiff(original, updated)`, as the three id lists rather than their JSON text. A modified
   * id is in both lists, so no id is in two of the three lists.
   */
  function GetDiff(original: seq<Item>, updated: seq<Item>): (d: Diff)
    ensures forall x :: x in d.added <==> HasId(updated, x) && !HasId(original, x)
    ensures forall x :: x in d.removed <==> HasId(original, x) && !HasId(updated, x)
    ensures forall x :: x in d.modified <==>
              exists i :: 0 <= i < |updated| && updated[i].id == x && Changed(original, updated[i])
    ensures forall x :: x in d.modified ==> HasId(original, x) && HasId(updated, x)
    ensures forall x :: x in d.added ==> x !in d.removed && x !in d.modified
    ensures forall x :: x in d.modified ==> x !in d.removed
  {
    var d := Diff(AddedIds(original, updated), RemovedIds(original, updated), ModifiedIds(original, updated));
    forall x | x in d.modified ensures HasId(original, x) && HasId(updated, x) {
      var i :| 0 <= i < |updated| && updated[i].id == x && Changed(original, updated[i]);
    }
    d
  }

  /** No two items share an id. */
  predicate UniqueIds(items: seq<Item>) {
    forall i, j :: 0 <= i < j < |items| ==> items[i].id != items[j].id
  }

  /** Nothing is added when every id of `updated` already occurs in `original`. */
  lemma {:induction false} NoneAdded(original: seq<Item>, updated: seq<Item>)
    requires forall i :: 0 <= i < |updated| ==> HasId(original, updated[i].id)
    ensures AddedIds(original, updated) == []
  {
    if updated != [] {
      assert HasId(original, updated[0].id);
      NoneAdded(original, updated[1..]);
    }
  }

  /** Nothing is removed when every id of `original` still occurs in `updated`. */
  lemma {:induction false} NoneRemoved(original: seq<Item>, updated: seq<Item>)
    requires forall i :: 0 <= i < |original| ==> HasId(updated, original[i].id)
    ensures RemovedIds(original, updated) == []
  {
    if original != [] {
      assert HasId(updated, original[0].id);
      NoneRemoved(original[1..], updated);
    }
  }

  /** Nothing is modified when no item of `updated` has changed. */
  lemma {:induction false} NoneModified(original: seq<Item>, updated: seq<Item>)
    requires forall i :: 0 <= i < |updated| ==> !Changed(original, updated[i])
    ensures ModifiedIds(original, updated) == []
  {
    if updated != [] {
      assert !Changed(original, updated[0]);
      NoneModified(original, updated[1..]);
    }
  }

  /**
   * A list compared with itself has no added and no removed ids, and no modified ids either when
   * its ids are unique (with a repeated id, a later item is compared with the first one).
   */
  lemma DiffSelf(items: seq<Item>)
    ensures GetDiff(items, items).added == [] && GetDiff(items, items).removed == []
    ensures UniqueIds(items) ==> GetDiff(items, items).modified == []
  {
    forall i | 0 <= i < |items| ensures HasId(items, items[i].id) {
    }
    NoneAdded(items, items);
    NoneRemoved(items, items);
    if UniqueIds(items) {
      forall i | 0 <= i < |items| ensures !Changed(items, items[i]) {
        var k :| 0 <= k < |items| && items[k] == FindById(items, items[i].id).value && items[k].id == items[i].id
                 && forall j :: 0 <= j < k ==> items[j].id != items[i].id;
        assert k == i;
      }
      NoneModified(items, items);
    }
  }
}
