/**
  The state of the todo-list React component (react_traversy/src/App.js):
  a list of todo objects that the component fetches on mount, toggles in
  place, filters on delete and extends on add. The HTTP exchanges are
  parameters: each method takes the response body the server sent back and
  performs the `setState` that follows it.
 */
module TodoApp {

  /** A todo as the JSON placeholder server sends it (the unused `userId` is omitted). */
  datatype TodoItem = TodoItem(id: int, title: string, completed: bool)

  /** The body `addTodoItem` posts. */
  datatype NewTodo = NewTodo(title: string, completed: bool)

  /** A todo object held in the component state; `toggleComplete` flips `completed` in place. */
  class Todo {
    const id: int
    const title: string
    var completed: bool

    /** The object parsed from one item of a response body. */
    constructor (item: TodoItem)
      ensures Item() == item
    {
      id, title, completed := item.id, item.title, item.completed;
    }

    function Item(): TodoItem
      reads this
    {
      TodoItem(id, title, completed)
    }
  }

  /** The values the objects `ts` hold, in order. */
  function Items(ts: seq<Todo>): (r: seq<TodoItem>)
    reads ts
    ensures |r| == |ts| && forall i | 0 <= i < |ts| :: r[i] == ts[i].Item()
  {
    if ts == [] then [] else [ts[0].Item()] + Items(ts[1..])
  }

  predicate DistinctObjects(ts: seq<Todo>) {
    forall i, j | 0 <= i < j < |ts| :: ts[i] != ts[j]
  }

  // ---- The state changes on values ----

  /** The todo after `toggleComplete(id)` visits it: `completed` negated when the ids are strictly equal. */
  function Toggled(item: TodoItem, id: int): TodoItem {
    if id == item.id then item.(completed := !item.completed) else item
  }

  /** The list after `toggleComplete(id)`. */
  function ToggleAll(items: seq<TodoItem>, id: int): (r: seq<TodoItem>)
    ensures |r| == |items|
    ensures forall i | 0 <= i < |items| ::
      && r[i].id == items[i].id && r[i].title == items[i].title
      && (r[i].completed <==> if items[i].id == id then !items[i].completed else items[i].completed)
  {
    seq(|items|, i requires 0 <= i < |items| => Toggled(items[i], id))
  }

  /** Toggling the same id twice restores every flag. */
  lemma ToggleTwice(items: seq<TodoItem>, id: int)
    ensures ToggleAll(ToggleAll(items, id), id) == items
  {
    var r := ToggleAll(ToggleAll(items, id), id);
    forall i | 0 <= i < |items| ensures r[i] == items[i] {
      assert r[i].completed == items[i].completed;
    }
  }

  /** Toggling an id no todo has changes nothing. */
  lemma ToggleAbsent(items: seq<TodoItem>, id: int)
    requires forall i | 0 <= i < |items| :: items[i].id != id
    ensures ToggleAll(items, id) == items
  {
    var r := ToggleAll(items, id);
    forall i | 0 <= i < |items| ensures r[i] == items[i] {
      assert r[i].completed == items[i].completed;
    }
  }

  /** The list after `delTodo(id)`: `filter(todo => id !== todo.id)`. */
  function RemoveId(items: seq<TodoItem>, id: int): (r: seq<TodoItem>)
    ensures |r| <= |items|
    ensures forall x :: x in r <==> x in items && x.id != id
    decreases items
  {
    if items == [] then []
    else if items[0].id != id then [items[0]] + RemoveId(items[1..], id)
    else RemoveId(items[1..], id)
  }

  /** Filtering keeps the relative order: it distributes over concatenation. */
  lemma {:induction false} RemoveIdAppend(a: seq<TodoItem>, b: seq<TodoItem>, id: int)
    ensures RemoveId(a + b, id) == RemoveId(a, id) + RemoveId(b, id)
    decreases a
  {
    if a != [] {
      assert (a + b)[1..] == a[1..] + b;
      RemoveIdAppend(a[1..], b, id);
    } else {
      assert a + b == b;
    }
  }

  /** Deleting an id no todo has leaves the list as it was. */
  lemma {:induction false} RemoveAbsent(items: seq<TodoItem>, id: int)
    requires forall i | 0 <= i < |items| :: items[i].id != id
    ensures RemoveId(items, id) == items
    decreases items
  {
    if items != [] {
      RemoveAbsent(items[1..], id);
    }
  }

  /** Deleting twice is deleting once. */
  lemma {:induction false} RemoveIdIdempotent(items: seq<TodoItem>, id: int)
    ensures RemoveId(RemoveId(items, id), id) == RemoveId(items, id)
  {
    var r := RemoveId(items, id);
    forall i | 0 <= i < |r| ensures r[i].id != id {
      assert r[i] in r;
    }
    RemoveAbsent(r, id);
  }

  /** The todo objects whose id differs from `id`, in order: `filter` on the objects themselves. */
  function KeptObjects(ts: seq<Todo>, id: int): (r: seq<Todo>)
    reads ts
    ensures forall t | t in r :: t in ts
    decreases ts
  {
    if ts == [] then []
    else if id != ts[0].id then [ts[0]] + KeptObjects(ts[1..], id)
    else KeptObjects(ts[1..], id)
  }

  /** Filtering the objects and then reading them is filtering their values. */
  lemma {:induction false} KeptObjectsItems(ts: seq<Todo>, id: int)
    ensures Items(KeptObjects(ts, id)) == RemoveId(Items(ts), id)
    decreases ts
  {
    if ts != [] {
      KeptObjectsItems(ts[1..], id);
      assert Items(ts)[1..] == Items(ts[1..]);
      if id != ts[0].id {
        assert Items([ts[0]] + KeptObjects(ts[1..], id)) == [ts[0].Item()] + Items(KeptObjects(ts[1..], id));
      }
    }
  }

  /** Filtering distinct objects gives distinct objects. */
  lemma {:induction false} KeptObjectsDistinct(ts: seq<Todo>, id: int)
    requires DistinctObjects(ts)
    ensures DistinctObjects(KeptObjects(ts, id))
    decreases ts
  {
    if ts != [] {
      KeptObjectsDistinct(ts[1..], id);
      assert ts[0] !in ts[1..];
    }
  }

  /** The `App` component and its `state.todos`. */
  class App {
    var todos: seq<Todo>

    /** `state = { todos: [] }`. */
    constructor ()
      ensures Valid() && Contents() == []
    {
      todos := [];
    }

    /** Each todo object is held once: every one of them was parsed from a different response. */
    predicate Valid()
      reads this
    {
      DistinctObjects(todos)
    }

    function Contents(): seq<TodoItem>
      reads this, todos
    {
      Items(todos)
    }

    /** `componentDidMount`: the state becomes the objects parsed from the fetched list. */
    method ComponentDidMount(response: seq<TodoItem>)
      modifies this
      ensures Valid() && Contents() == response
      ensures forall t | t in todos :: fresh(t)
    {
      var parsed: seq<Todo> := [];
      for i := 0 to |response|
        invariant |parsed| == i && DistinctObjects(parsed)
        invariant forall j | 0 <= j < i :: fresh(parsed[j]) && parsed[j].Item() == response[j]
      {
        var t := new Todo(response[i]);
        parsed := parsed + [t];
      }
      todos := parsed;
    }

    /**
      `toggleComplete(id)`: `map` over the todos that flips `completed` on the
      ones with that id, mutating each object and keeping the same objects in order.
     */
    method ToggleComplete(id: int)
      requires Valid()
      modifies this, todos
      ensures todos == old(todos) && Valid()
      ensures Contents() == ToggleAll(old(Contents()), id)
    {
      var mapped: seq<Todo> := [];
      for i := 0 to |todos|
        invariant todos == old(todos) && mapped == todos[..i]
        invariant forall j | 0 <= j < i :: todos[j].Item() == Toggled(old(todos[j].Item()), id)
        invariant forall j | i <= j < |todos| :: todos[j].Item() == old(todos[j].Item())
      {
        var todo := todos[i];
        if id == todo.id {
          todo.completed := !todo.completed;
        }
        mapped := mapped + [todo];
      }
      todos := mapped;
      assert Contents() == ToggleAll(old(Contents()), id) by {
        forall j | 0 <= j < |todos| ensures Contents()[j] == ToggleAll(old(Contents()), id)[j] {
          assert old(Contents())[j] == old(todos[j].Item());
        }
      }
    }

    /** `delTodo(id)`, once the server has answered the DELETE: the todos whose id differs, in order. */
    method DelTodo(id: int)
      requires Valid()
      modifies this
      ensures Valid() && Contents() == RemoveId(old(Contents()), id)
    {
      KeptObjectsItems(todos, id);
      KeptObjectsDistinct(todos, id);
      todos := KeptObjects(todos, id);
    }

    /**
      `addTodoItem(title)`: posts `{ title, completed: false }` and appends the
      object parsed from the server's answer `created`.
     */
    method AddTodoItem(title: string, created: TodoItem) returns (request: NewTodo)
      requires Valid()
      modifies this
      ensures request == NewTodo(title, false)
      ensures Valid() && Contents() == old(Contents()) + [created]
    {
      request := NewTodo(title, false);
      var t := new Todo(created);
      todos := todos + [t];
    }
  }
}
