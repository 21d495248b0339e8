/**
 * The todo_app of the two shell firmwares: a global array of two TodoItem
 * records (a 100-character text, a completed flag and an active flag),
 * changed in place by the menu choices.
 *
 * The first shell (shell-based-pico-os) lets the user overwrite slot 1 or
 * 2 directly and clears a slot completely on delete. The second
 * (pico-shell-based-os) adds into the first inactive slot, refuses empty
 * text and, on delete, clears the text and the active flag but keeps the
 * completed flag. Both toggle the completed flag of an active slot.
 *
 * Every menu action is specified by a function on the sequence of the two
 * records; the lemmas are proved about those functions.
 */
module ShellTodo {
  import opened CText

  const TODO_TEXT_SIZE: int := 100
  const TODO_SLOTS: int := 2

  datatype TodoItem = TodoItem(text: string, completed: bool, active: bool)

  /** The initial value of both slots. */
  const EmptyItem: TodoItem := TodoItem("", false, false)

  /**
   * The text a slot holds after strncpy(text, s, 99) and text[99] = 0: the
   * C string in s, cut to 99 characters.
   */
  function StoredText(s: string): (t: string)
    ensures |t| < TODO_TEXT_SIZE && '\0' !in t && t <= CString(s)
    ensures |CString(s)| < TODO_TEXT_SIZE ==> t == CString(s)
    ensures t == [] <==> CString(s) == []
  {
    Take(CString(s), TODO_TEXT_SIZE - 1)
  }

  /** Every slot's text fits its buffer. */
  predicate WellFormed(items: seq<TodoItem>) {
    |items| == TODO_SLOTS && forall j :: 0 <= j < |items| ==> |items[j].text| < TODO_TEXT_SIZE
  }

  /** The shape the first shell keeps: an inactive slot is empty and not completed. */
  predicate InactiveSlotsClear(items: seq<TodoItem>) {
    forall j :: 0 <= j < |items| && !items[j].active ==> items[j] == EmptyItem
  }

  /** The slot a typed task number selects: atoi(num) - 1, when that names an active slot. */
  predicate Selects(items: seq<TodoItem>, num: string, j: int) {
    0 <= j < |items| && j == Atoi(num) - 1 && items[j].active
  }

  /** Choices 1 and 2 of the first shell: slot idx gets the text, active and not completed. */
  function Edited(items: seq<TodoItem>, idx: nat, text: string): (r: seq<TodoItem>)
    requires idx < |items|
    ensures |r| == |items|
    ensures r[idx].active && !r[idx].completed && r[idx].text == StoredText(text)
    ensures forall j :: 0 <= j < |r| && j != idx ==> r[j] == items[j]
  {
    items[idx := TodoItem(StoredText(text), false, true)]
  }

  /** "Mark complete" (both shells): the completed flag of the selected slot flips. */
  function Toggled(items: seq<TodoItem>, num: string): (r: seq<TodoItem>)
    ensures |r| == |items|
    ensures forall j :: 0 <= j < |r| ==> r[j].text == items[j].text && r[j].active == items[j].active
    ensures forall j :: 0 <= j < |r| ==> (r[j].completed != items[j].completed <==> Selects(items, num, j))
  {
    var k := Atoi(num) - 1;
    if 0 <= k < |items| && items[k].active then items[k := items[k].(completed := !items[k].completed)]
    else items
  }

  /** "Delete" of the first shell: the selected slot goes back to the initial record. */
  function ClearedSlot(items: seq<TodoItem>, num: string): (r: seq<TodoItem>)
    ensures |r| == |items|
    ensures forall j :: 0 <= j < |r| ==> r[j] == if Selects(items, num, j) then EmptyItem else items[j]
  {
    var k := Atoi(num) - 1;
    if 0 <= k < |items| && items[k].active then items[k := EmptyItem] else items
  }

  /**
   * "Delete" of the second shell: the selected slot loses its text and its
   * active flag; its completed flag stays as it was.
   */
  function Deactivated(items: seq<TodoItem>, num: string): (r: seq<TodoItem>)
    ensures |r| == |items|
    ensures forall j :: 0 <= j < |r| && Selects(items, num, j) ==>
      !r[j].active && r[j].text == "" && r[j].completed == items[j].completed
    ensures forall j :: 0 <= j < |r| && !Selects(items, num, j) ==> r[j] == items[j]
  {
    var k := Atoi(num) - 1;
    if 0 <= k < |items| && items[k].active then items[k := items[k].(active := false, text := "")] else items
  }

  /** The first inactive slot, if any. */
  function FirstFree(items: seq<TodoItem>): (k: Option<nat>)
    ensures k.Some? ==> k.value < |items| && !items[k.value].active
    ensures k.Some? ==> forall j :: 0 <= j < k.value ==> items[j].active
    ensures k.None? <==> forall j :: 0 <= j < |items| ==> items[j].active
  {
    if items == [] then None
    else if !items[0].active then Some(0)
    else match FirstFree(items[1..])
      case None => None
      case Some(k) => Some(k + 1)
  }

  /**
   * "Add" of the second shell: non-empty text goes into the first inactive
   * slot, which becomes active and not completed; with no free slot, or
   * with empty text, nothing changes.
   */
  function Added(items: seq<TodoItem>, text: string): (r: seq<TodoItem>)
    ensures |r| == |items|
    ensures FirstFree(items).None? || CString(text) == [] ==> r == items
    ensures FirstFree(items).Some? && CString(text) != [] ==>
      r == items[FirstFree(items).value := TodoItem(StoredText(text), false, true)]
  {
    match FirstFree(items)
    case None => items
    case Some(k) => if CString(text) == [] then items else items[k := TodoItem(StoredText(text), false, true)]
  }

  /** Number of active slots. */
  function ActiveCount(items: seq<TodoItem>): (n: nat)
    ensures n <= |items|
  {
    if items == [] then 0 else (if items[0].active then 1 else 0) + ActiveCount(items[1..])
  }

  /** Replacing one record changes the count by the change of that record's flag. */
  lemma {:induction false} ActiveCountUpdate(items: seq<TodoItem>, k: nat, x: TodoItem)
    requires k < |items|
    ensures ActiveCount(items[k := x]) + (if items[k].active then 1 else 0)
         == ActiveCount(items) + (if x.active then 1 else 0)
  {
    if k > 0 {
      assert items[k := x][1..] == items[1..][k - 1 := x];
      ActiveCountUpdate(items[1..], k - 1, x);
    }
  }

  /**
   * Adding non-empty text in the second shell adds one active todo exactly
   * when a slot is free, and never more than the two slots hold.
   */
  lemma AddedCount(items: seq<TodoItem>, text: string)
    requires |items| == TODO_SLOTS
    ensures ActiveCount(Added(items, text)) ==
      ActiveCount(items) + (if FirstFree(items).Some? && CString(text) != [] then 1 else 0)
    ensures ActiveCount(Added(items, text)) <= TODO_SLOTS
  {
    if FirstFree(items).Some? && CString(text) != [] {
      ActiveCountUpdate(items, FirstFree(items).value, TodoItem(StoredText(text), false, true));
    }
  }

  /** In the second shell, an active slot deleted is the slot the next add fills when it is the first free one. */
  lemma DeleteThenAdd(items: seq<TodoItem>, num: string, text: string)
    requires WellFormed(items) && CString(text) != []
    requires Selects(items, num, 0)
    ensures Added(Deactivated(items, num), text)[0] == TodoItem(StoredText(text), false, true)
    ensures Added(Deactivated(items, num), text)[1] == items[1]
  {
    assert FirstFree(Deactivated(items, num)) == Some(0);
  }

  /** Toggling the same task twice restores every slot. */
  lemma ToggleTwice(items: seq<TodoItem>, num: string)
    ensures Toggled(Toggled(items, num), num) == items
  {
    var once := Toggled(items, num);
    forall j | 0 <= j < |items|
      ensures Selects(once, num, j) == Selects(items, num, j)
    {
    }
  }

  /** The first shell's operations keep inactive slots empty and uncompleted. */
  lemma FirstShellKeepsSlotsClear(items: seq<TodoItem>, idx: nat, num: string, text: string)
    requires InactiveSlotsClear(items) && idx < |items|
    ensures InactiveSlotsClear(Edited(items, idx, text))
    ensures InactiveSlotsClear(Toggled(items, num))
    ensures InactiveSlotsClear(ClearedSlot(items, num))
  {
  }

  /** Every operation keeps each text within its 100-character buffer. */
  lemma OperationsKeepWellFormed(items: seq<TodoItem>, idx: nat, num: string, text: string)
    requires WellFormed(items) && idx < |items|
    ensures WellFormed(Edited(items, idx, text)) && WellFormed(Toggled(items, num))
    ensures WellFormed(ClearedSlot(items, num)) && WellFormed(Deactivated(items, num))
    ensures WellFormed(Added(items, text))
  {
  }

  /**
   * Unlike the first shell, the second one can leave a completed flag on an
   * inactive slot: delete a completed task.
   */
  lemma DeactivatedKeepsCompleted()
    ensures var items := [TodoItem("x", true, true), EmptyItem];
      Deactivated(items, "1")[0] == TodoItem("", true, false) && !InactiveSlotsClear(Deactivated(items, "1"))
  {
    var items := [TodoItem("x", true, true), EmptyItem];
    assert Atoi("1") == 1 by {
      assert SkipSpaces("1") == "1";
      assert LeadingDigits("1") == "1";
      assert DecimalValue("1") == 1;
    }
  }

  /** The global todos array. */
  class Todos {
    var todos: array<TodoItem>

    ghost predicate Valid()
      reads this, todos
    {
      WellFormed(todos[..])
    }

    constructor ()
      ensures Valid() && fresh(todos)
      ensures todos[..] == [EmptyItem, EmptyItem]
    {
      todos := new TodoItem[TODO_SLOTS](_ => EmptyItem);
      new;
      assert todos[..] == [todos[0], todos[1]];
    }

    /** The slots the second shell lists, in order (the first lists both, "(empty)" for inactive ones). */
    method ActiveSlots() returns (shown: seq<nat>)
      requires Valid()
      ensures forall j :: j in shown <==> 0 <= j < TODO_SLOTS && todos[j].active
      ensures forall a, b :: 0 <= a < b < |shown| ==> shown[a] < shown[b]
      ensures |shown| == ActiveCount(todos[..])
    {
      shown := [];
      var i := 0;
      while i < TODO_SLOTS
        invariant 0 <= i <= TODO_SLOTS
        invariant forall j :: j in shown <==> 0 <= j < i && todos[j].active
        invariant forall a :: 0 <= a < |shown| ==> shown[a] < i
        invariant forall a, b :: 0 <= a < b < |shown| ==> shown[a] < shown[b]
        invariant |shown| == ActiveCount(todos[..]) - ActiveCount(todos[i..])
      {
        assert todos[i..][1..] == todos[i + 1..];
        if todos[i].active {
          shown := shown + [i];
        }
        i := i + 1;
      }
    }

    /** Choices "1"/"2" of the first shell: overwrite slot idx. */
    method Edit(idx: nat, text: string)
      requires Valid() && idx < TODO_SLOTS
      modifies todos
      ensures Valid() && todos[..] == Edited(old(todos[..]), idx, text)
    {
      todos[idx] := TodoItem(StoredText(text), false, true);
    }

    /** "Mark complete" of both shells. */
    method Toggle(num: string)
      requires Valid()
      modifies todos
      ensures Valid() && todos[..] == Toggled(old(todos[..]), num)
    {
      var idx := Atoi(num) - 1;
      if 0 <= idx < TODO_SLOTS && todos[idx].active {
        todos[idx] := todos[idx].(completed := !todos[idx].completed);
      }
    }

    /** "Delete" of the first shell. */
    method Clear(num: string)
      requires Valid()
      modifies todos
      ensures Valid() && todos[..] == ClearedSlot(old(todos[..]), num)
    {
      var idx := Atoi(num) - 1;
      if 0 <= idx < TODO_SLOTS && todos[idx].active {
        todos[idx] := EmptyItem;
      }
    }

    /** "Delete" of the second shell. */
    method Deactivate(num: string)
      requires Valid()
      modifies todos
      ensures Valid() && todos[..] == Deactivated(old(todos[..]), num)
    {
      var idx := Atoi(num) - 1;
      if 0 <= idx < TODO_SLOTS && todos[idx].active {
        todos[idx] := todos[idx].(active := false, text := "");
      }
    }

    /**
     * "Add" of the second shell: look for the first inactive slot; the text
     * is read there (the model takes it as a parameter) and refused when
     * empty.
     */
    method Add(text: string)
      requires Valid()
      modifies todos
      ensures Valid() && todos[..] == Added(old(todos[..]), text)
    {
      var i := 0;
      while i < TODO_SLOTS
        invariant 0 <= i <= TODO_SLOTS
        invariant forall j :: 0 <= j < i ==> todos[j].active
        invariant todos[..] == old(todos[..])
      {
        if !todos[i].active {
          assert FirstFree(todos[..]) == Some(i) by {
            FreeAt(todos[..], i);
          }
          if CString(text) != [] {
            todos[i] := TodoItem(StoredText(text), false, true);
          }
          return;
        }
        i := i + 1;
      }
    }

    /**
     * One pass of the first shell's menu: `choice` and `input` are the two
     * lines read. Returns true for "5" (exit).
     */
    method MenuFirstShell(choice: string, input: string) returns (exit: bool)
      requires Valid()
      modifies todos
      ensures Valid() && exit == (choice == "5")
      ensures choice == "1" ==> todos[..] == Edited(old(todos[..]), 0, input)
      ensures choice == "2" ==> todos[..] == Edited(old(todos[..]), 1, input)
      ensures choice == "3" ==> todos[..] == Toggled(old(todos[..]), input)
      ensures choice == "4" ==> todos[..] == ClearedSlot(old(todos[..]), input)
      ensures choice !in ["1", "2", "3", "4"] ==> todos[..] == old(todos[..])
    {
      exit := false;
      if choice == "1" || choice == "2" {
        AtoiOfDecimal(if choice == "1" then 1 else 2);
        var idx := Atoi(choice) - 1;
        Edit(idx, input);
      } else if choice == "3" {
        Toggle(input);
      } else if choice == "4" {
        Clear(input);
      } else if choice == "5" {
        exit := true;
      }
    }

    /**
     * One pass of the second shell's menu: "1" add, "2" complete, "3"
     * delete, "4" exit.
     */
    method MenuSecondShell(choice: string, input: string) returns (exit: bool)
      requires Valid()
      modifies todos
      ensures Valid() && exit == (choice == "4")
      ensures choice == "1" ==> todos[..] == Added(old(todos[..]), input)
      ensures choice == "2" ==> todos[..] == Toggled(old(todos[..]), input)
      ensures choice == "3" ==> todos[..] == Deactivated(old(todos[..]), input)
      ensures choice !in ["1", "2", "3"] ==> todos[..] == old(todos[..])
    {
      exit := false;
      if choice == "1" {
        Add(input);
      } else if choice == "2" {
        Toggle(input);
      } else if choice == "3" {
        Deactivate(input);
      } else if choice == "4" {
        exit := true;
      }
    }
  }

  /** An inactive slot after active ones is the first free one. */
  lemma {:induction false} FreeAt(items: seq<TodoItem>, i: nat)
    requires i < |items| && !items[i].active
    requires forall j :: 0 <= j < i ==> items[j].active
    ensures FirstFree(items) == Some(i)
  {
    if i > 0 {
      FreeAt(items[1..], i - 1);
    }
  }
}
