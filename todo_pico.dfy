/**
 * The two-task menu of to-do-pico: two 15-character buffers t1/t2, their
 * done flags d1/d2 and a count cnt, changed in place by the menu choices
 * List, Add, Done and Delete. Deleting task 1 moves task 2 into its slot.
 *
 * The abstract view Tasks() is the list of the first cnt slots; every
 * choice is stated as an operation on that list.
 */
module TodoPico {
  import opened CText

  const TASK_BUFFER: int := 15
  /** The "%14s" field width of the Add prompt. */
  const TASK_WIDTH: int := 14
  const MAX_TASKS: int := 2

  datatype Task = Task(text: string, done: bool)

  /**
   * What "%14s" stores: the characters of a word of at most 14 characters
   * and a NUL after them.
   */
  method StoreCString(a: array<char>, w: string)
    requires a.Length == TASK_BUFFER && |w| <= TASK_WIDTH
    modifies a
    ensures a[..] == w + ['\0'] + old(a[|w| + 1..])
    ensures CString(a[..]) == CString(w) && '\0' in a[..]
  {
    var i := 0;
    while i < |w|
      invariant 0 <= i <= |w|
      invariant a[..i] == w[..i] && a[i..] == old(a[i..])
    {
      a[i] := w[i];
      i := i + 1;
    }
    a[|w|] := '\0';
    assert a[..] == w + ['\0'] + old(a[|w| + 1..]);
    assert a[..][|w|] == '\0';
    CStringOfStored(w, old(a[|w| + 1..]));
  }

  /**
   * The text a task buffer holds after scanf("%14s") into it: the word read,
   * or the old contents when the input has no word left.
   */
  function ScannedText(input: string, previous: seq<char>): (t: string)
    ensures |t| <= TASK_WIDTH || t == CString(previous)
    ensures SkipSpaces(input) == [] ==> t == CString(previous)
    ensures SkipSpaces(input) != [] ==> t <= SkipSpaces(input) && (t == [] || !IsSpace(t[0]))
    ensures SkipSpaces(input) != [] ==> t == CString(WordPrefix(SkipSpaces(input), TASK_WIDTH))
    ensures SkipSpaces(input) != [] && '\0' !in SkipSpaces(input) ==> t == WordPrefix(SkipSpaces(input), TASK_WIDTH)
  {
    match ScanWord(input, TASK_WIDTH)
    case Some((w, _)) => CString(w)
    case None => CString(previous)
  }

  /**
   * What scanf("%14s") followed by getchar leaves unread: the input after
   * the word and the one character behind it, or nothing when no word is left.
   */
  function ScannedRest(input: string): (r: string)
    ensures |r| < |input| || r == []
    ensures SkipSpaces(input) == [] ==> r == []
    ensures var t := SkipSpaces(input); var w := WordPrefix(t, TASK_WIDTH);
      t != [] ==> r == if |w| >= |t| then [] else t[|w| + 1..]
  {
    match ScanWord(input, TASK_WIDTH)
    case Some((_, after)) => if after == [] then [] else after[1..]
    case None => []
  }

  /** Round trip: a task typed as one word and a newline leaves exactly what follows the newline. */
  lemma RestAfterWord(w: string, more: string)
    requires IsWord(w) && |w| <= TASK_WIDTH
    ensures ScannedRest(w + "\n" + more) == more
  {
    assert w + "\n" + more == w + ("\n" + more);
    SkipSpacesOfWord(w, "\n" + more);
    WordPrefixOfWord(w, "\n" + more, TASK_WIDTH);
    assert (w + ("\n" + more))[|w|..] == "\n" + more;
  }

  class Menu {
    var t1: array<char>
    var t2: array<char>
    var d1: bool
    var d2: bool
    var cnt: int

    ghost predicate Valid()
      reads this, t1, t2
    {
      && t1.Length == TASK_BUFFER && t2.Length == TASK_BUFFER && t1 != t2
      && 0 <= cnt <= MAX_TASKS
      && '\0' in t1[..] && '\0' in t2[..]
    }

    /** The tasks the menu holds, in slot order. */
    ghost function Tasks(): (ts: seq<Task>)
      reads this, t1, t2
      requires Valid()
      ensures |ts| == cnt
    {
      var all := [Task(CString(t1[..]), d1), Task(CString(t2[..]), d2)];
      all[..cnt]
    }

    constructor ()
      ensures Valid() && fresh(t1) && fresh(t2)
      ensures Tasks() == [] && !d1 && !d2
      ensures CString(t1[..]) == "" && CString(t2[..]) == ""
    {
      t1 := new char[TASK_BUFFER](_ => '\0');
      t2 := new char[TASK_BUFFER](_ => '\0');
      d1, d2, cnt := false, false, 0;
      new;
      assert t1[..][0] == '\0' && t2[..][0] == '\0';
    }

    /**
     * Choice 1: the tasks shown are exactly slots 1..cnt with their done
     * flags; an empty result is printed as "None".
     */
    method List() returns (shown: seq<Task>)
      requires Valid()
      ensures shown == Tasks()
      ensures |shown| == cnt
      ensures cnt >= 1 ==> shown[0] == Task(CString(t1[..]), d1)
      ensures cnt >= 2 ==> shown[1] == Task(CString(t2[..]), d2)
    {
      shown := [];
      if cnt >= 1 {
        shown := shown + [Task(CString(t1[..]), d1)];
      }
      if cnt >= 2 {
        shown := shown + [Task(CString(t2[..]), d2)];
      }
    }

    /**
     * Choice 2: with a free slot, scanf("%14s") reads the next word of the
     * input into slot cnt+1 (leaving the buffer alone at end of input), the
     * slot is marked not done and cnt grows; with both slots taken nothing
     * changes. The input left after the word and the following getchar is
     * returned.
     */
    method Add(input: string) returns (rest: string)
      requires Valid()
      modifies this, t1, t2
      ensures Valid() && t1 == old(t1) && t2 == old(t2)
      ensures old(cnt) == MAX_TASKS ==> Tasks() == old(Tasks()) && rest == input && unchanged(this, t1, t2)
      ensures old(cnt) < MAX_TASKS ==> cnt == old(cnt) + 1 && Tasks()[..old(cnt)] == old(Tasks())
      ensures old(cnt) < MAX_TASKS ==>
        Tasks()[old(cnt)] == Task(ScannedText(input, if old(cnt) == 0 then old(t1[..]) else old(t2[..])), false)
      ensures old(cnt) < MAX_TASKS ==> rest == ScannedRest(input)
      ensures old(cnt) == 0 ==> unchanged(t2)
      ensures old(cnt) == 1 ==> unchanged(t1)
    {
      rest := input;
      ghost var before := Tasks();
      if cnt == 0 {
        ghost var other := t2[..];
        rest := ReadTask(t1, input);
        d1 := false;
        cnt := 1;
        assert t2[..] == other;
        assert Tasks() == [Task(CString(t1[..]), false)];
      } else if cnt == 1 {
        ghost var other := t1[..];
        rest := ReadTask(t2, input);
        d2 := false;
        cnt := 2;
        assert t1[..] == other;
        assert Tasks() == before + [Task(CString(t2[..]), false)];
      }
    }

    /**
     * scanf("%14s", t) followed by getchar: the word goes into the buffer
     * unless the input is exhausted; what is still unread is returned.
     */
    static method ReadTask(t: array<char>, input: string) returns (rest: string)
      requires t.Length == TASK_BUFFER
      modifies t
      ensures CString(t[..]) == ScannedText(input, old(t[..]))
      ensures '\0' in old(t[..]) ==> '\0' in t[..]
      ensures rest == ScannedRest(input)
    {
      rest := [];
      var scanned := ScanWord(input, TASK_WIDTH);
      if scanned.Some? {
        var (w, after) := scanned.value;
        StoreCString(t, w);
        rest := if after == [] then [] else after[1..];
      }
    }

    /** Choice 3: mark task n done (never undone) when it exists. */
    method Done(n: char)
      requires Valid()
      modifies this
      ensures Valid() && t1 == old(t1) && t2 == old(t2) && cnt == old(cnt)
      ensures (n == '1' && 1 <= cnt) || (n == '2' && 2 <= cnt) ==>
        var k := if n == '1' then 0 else 1;
        Tasks() == old(Tasks())[k := Task(old(Tasks())[k].text, true)]
      ensures !((n == '1' && 1 <= cnt) || (n == '2' && 2 <= cnt)) ==> d1 == old(d1) && d2 == old(d2)
      ensures d1 == (old(d1) || (n == '1' && 1 <= cnt)) && d2 == (old(d2) || (n == '2' && 2 <= cnt))
    {
      if n == '1' && cnt >= 1 {
        d1 := true;
      } else if n == '2' && cnt >= 2 {
        d2 := true;
      }
    }

    /**
     * Choice 4: delete task n when it is allowed. Task 1 can go whenever it
     * exists and task 2 moves up into its slot; task 2 only when both exist.
     * Either way the remaining tasks keep their order.
     */
    method Delete(n: char)
      requires Valid()
      modifies this, t1
      ensures Valid() && t1 == old(t1) && t2 == old(t2) && unchanged(t2)
      ensures (n == '1' && 1 <= old(cnt)) || (n == '2' && old(cnt) == 2) ==>
        var k := if n == '1' then 0 else 1;
        cnt == old(cnt) - 1 && Tasks() == old(Tasks())[..k] + old(Tasks())[k + 1..]
      ensures !((n == '1' && 1 <= old(cnt)) || (n == '2' && old(cnt) == 2)) ==>
        cnt == old(cnt) && d1 == old(d1) && d2 == old(d2) && unchanged(t1)
    {
      if n == '1' && cnt >= 1 {
        if cnt == 2 {
          CopyTask();
          d1 := d2;
        }
        cnt := cnt - 1;
      } else if n == '2' && cnt == 2 {
        cnt := cnt - 1;
      }
    }

    /** The 15-character copy loop of Delete: t1 becomes a copy of t2. */
    method CopyTask()
      requires Valid()
      modifies t1
      ensures Valid() && t1[..] == t2[..]
    {
      var i := 0;
      while i < TASK_BUFFER
        invariant 0 <= i <= TASK_BUFFER
        invariant t1[..i] == t2[..i]
      {
        t1[i] := t2[i];
        i := i + 1;
      }
      assert t1[..] == t1[..TASK_BUFFER];
    }

    /**
     * One pass of the menu loop: the choice character c, then whatever the
     * choice reads from the rest of the input; any other character leaves
     * the state alone. The input still unread is returned.
     */
    method Step(c: char, input: string) returns (rest: string)
      requires Valid()
      modifies this, t1, t2
      ensures Valid() && t1 == old(t1) && t2 == old(t2)
      ensures c !in "234" ==> Tasks() == old(Tasks()) && rest == input && unchanged(this, t1, t2)
      ensures c == '2' && old(cnt) == MAX_TASKS ==> Tasks() == old(Tasks()) && rest == input
      ensures c == '2' && old(cnt) < MAX_TASKS ==>
        Tasks() == old(Tasks()) + [Task(ScannedText(input, if old(cnt) == 0 then old(t1[..]) else old(t2[..])), false)]
        && rest == ScannedRest(input)
      ensures c in "34" ==> rest == (if |input| <= 2 then [] else input[2..])
      ensures c == '3' ==>
        var n := if input == [] then '\0' else input[0];
        if (n == '1' && 1 <= old(cnt)) || (n == '2' && 2 <= old(cnt)) then
          var k := if n == '1' then 0 else 1;
          Tasks() == old(Tasks())[k := Task(old(Tasks())[k].text, true)]
        else Tasks() == old(Tasks())
      ensures c == '4' ==>
        var n := if input == [] then '\0' else input[0];
        if (n == '1' && 1 <= old(cnt)) || (n == '2' && old(cnt) == 2) then
          var k := if n == '1' then 0 else 1;
          Tasks() == old(Tasks())[..k] + old(Tasks())[k + 1..]
        else Tasks() == old(Tasks())
    {
      rest := input;
      if c == '2' {
        rest := Add(input);
      } else if c == '3' || c == '4' {
        // getchar at the end of input yields EOF, which matches no task number
        var n := if input == [] then '\0' else input[0];
        rest := if |input| <= 2 then [] else input[2..];
        if c == '3' {
          Done(n);
        } else {
          ghost var before1, before2 := t1[..], t2[..];
          Delete(n);
          assert t2[..] == before2;
          assert !((n == '1' && 1 <= old(cnt)) || (n == '2' && old(cnt) == 2)) ==> t1[..] == before1;
        }
      }
    }
  }

  /** Deleting an existing task removes exactly one task from the list. */
  lemma DeleteRemovesOne(ts: seq<Task>, k: nat)
    requires k < |ts|
    ensures |ts[..k] + ts[k + 1..]| == |ts| - 1
    ensures multiset(ts[..k] + ts[k + 1..]) + multiset{ts[k]} == multiset(ts)
  {
    assert ts == ts[..k] + [ts[k]] + ts[k + 1..];
  }
}
