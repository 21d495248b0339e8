/**
 * Keyboard line editing of the shell firmwares. Keys arrive as integer
 * codes: CR or LF ends the line, BS (8) or DEL (127) removes the last
 * character when there is one, a printable character (32..126) is added
 * while the buffer holds fewer than 255, and every other code (including
 * the timeout code -1) is ignored.
 *
 * Three loops use these rules: read_line of the first shell, read_line of
 * the second shell (which also returns as soon as 255 characters are in
 * the buffer) and shell_loop (the same in both shells), which collects the
 * command line in command_buffer with cmd_index.
 */
module LineInput {
  import opened CText

  const MAX_COMMAND_LEN: int := 256
  /** The most characters a line can hold: the buffer less the NUL. */
  const LINE_CAP: int := 255

  const KEY_BACKSPACE: int := 8
  const KEY_LF: int := 10
  const KEY_CR: int := 13
  const KEY_DELETE: int := 127

  predicate EndsLine(c: int) {
    c == KEY_CR || c == KEY_LF
  }

  predicate Erases(c: int) {
    c == KEY_DELETE || c == KEY_BACKSPACE
  }

  predicate Printable(c: int) {
    32 <= c < 127
  }

  predicate PrintableText(s: string) {
    forall i :: 0 <= i < |s| ==> Printable(s[i] as int)
  }

  lemma PrintableHasNoNul(s: string)
    requires PrintableText(s)
    ensures '\0' !in s
  {
  }

  /** The key codes that type the characters of s. */
  function KeysOf(s: string): (keys: seq<int>)
    ensures |keys| == |s| && forall i :: 0 <= i < |s| ==> keys[i] == s[i] as int
  {
    seq(|s|, i requires 0 <= i < |s| => s[i] as int)
  }

  /**
   * One key that does not end the line: the buffer loses its last
   * character, gains one, or stays as it is.
   */
  function EditStep(buf: string, c: int): (r: string)
    ensures |buf| <= LINE_CAP ==> |r| <= LINE_CAP
    ensures PrintableText(buf) ==> PrintableText(r)
  {
    if Erases(c) then (if buf == [] then [] else buf[..|buf| - 1])
    else if Printable(c) && |buf| < LINE_CAP then buf + [c as char]
    else buf
  }

  /**
   * What one key does to the buffer: backspace/delete removes the last
   * character when there is one, a printable key below 255 characters is
   * appended, and nothing else changes the buffer.
   */
  lemma EditStepEffect(buf: string, c: int)
    ensures Erases(c) ==> EditStep(buf, c) == if buf == [] then [] else buf[..|buf| - 1]
    ensures !Erases(c) && Printable(c) && |buf| < LINE_CAP ==>
      |EditStep(buf, c)| == |buf| + 1 && EditStep(buf, c)[..|buf|] == buf && EditStep(buf, c)[|buf|] as int == c
    ensures !Erases(c) && !(Printable(c) && |buf| < LINE_CAP) ==> EditStep(buf, c) == buf
  {
    if !Erases(c) && Printable(c) && |buf| < LINE_CAP {
      assert (buf + [c as char])[..|buf|] == buf;
    }
  }

  /** The buffer after a run of keys none of which ends the line. */
  function Edit(buf: string, keys: seq<int>): (r: string)
    ensures |buf| <= LINE_CAP ==> |r| <= LINE_CAP
    ensures PrintableText(buf) ==> PrintableText(r)
    decreases |keys|
  {
    if keys == [] then buf else Edit(EditStep(buf, keys[0]), keys[1..])
  }

  /**
   * The first character of a printable text, typed into a buffer with
   * room, is appended; the remaining keys type the rest of the text.
   */
  lemma TypeOne(buf: string, s: string)
    requires s != [] && PrintableText(s) && |buf| < LINE_CAP
    ensures KeysOf(s)[0] == s[0] as int && !EndsLine(s[0] as int)
    ensures EditStep(buf, KeysOf(s)[0]) == buf + [s[0]]
    ensures KeysOf(s)[1..] == KeysOf(s[1..]) && PrintableText(s[1..])
    ensures buf + [s[0]] + s[1..] == buf + s
  {
    var c := s[0] as int;
    assert Printable(c) && !Erases(c);
    assert c as char == s[0];
    forall i | 0 <= i < |s| - 1
      ensures Printable(s[1..][i] as int)
    {
      assert s[1..][i] == s[i + 1];
    }
  }

  /** Editing keys one after another is editing their concatenation. */
  lemma {:induction false} EditAppend(buf: string, keys: seq<int>, c: int)
    ensures Edit(buf, keys + [c]) == EditStep(Edit(buf, keys), c)
    decreases |keys|
  {
    if keys == [] {
      assert [c][1..] == [];
    } else {
      assert (keys + [c])[1..] == keys[1..] + [c];
      EditAppend(EditStep(buf, keys[0]), keys[1..], c);
    }
  }

  /** Printable characters that fit are typed in as they are. */
  lemma {:induction false} TypeText(buf: string, s: string)
    requires PrintableText(s) && |buf| + |s| <= LINE_CAP
    ensures Edit(buf, KeysOf(s)) == buf + s
    decreases |s|
  {
    if s != [] {
      TypeOne(buf, s);
      TypeText(buf + [s[0]], s[1..]);
    }
  }

  /** A printable character typed and then erased leaves the line as it was. */
  lemma BackspaceCancels(buf: string, c: int)
    requires Printable(c) && |buf| < LINE_CAP
    ensures Edit(buf, [c, KEY_BACKSPACE]) == buf
  {
    var typed := buf + [c as char];
    var keys := [c, KEY_BACKSPACE];
    assert keys[0] == c && keys[1..] == [KEY_BACKSPACE] && [KEY_BACKSPACE][1..] == [];
    assert EditStep(buf, c) == typed;
    assert Edit(buf, keys) == Edit(typed, [KEY_BACKSPACE]);
    assert typed[..|buf|] == buf;
    assert EditStep(typed, KEY_BACKSPACE) == buf;
    assert Edit(typed, [KEY_BACKSPACE]) == Edit(buf, []);
  }

  /** The index of the first key that ends the line. */
  function FirstEnd(keys: seq<int>): (k: Option<nat>)
    ensures k.Some? ==> k.value < |keys| && EndsLine(keys[k.value])
    ensures k.Some? ==> forall j :: 0 <= j < k.value ==> !EndsLine(keys[j])
    ensures k.None? <==> forall j :: 0 <= j < |keys| ==> !EndsLine(keys[j])
  {
    if keys == [] then None
    else if EndsLine(keys[0]) then Some(0)
    else match FirstEnd(keys[1..])
      case None => None
      case Some(k) => Some(k + 1)
  }

  lemma {:induction false} EndAt(keys: seq<int>, i: nat)
    requires i < |keys| && EndsLine(keys[i])
    requires forall j :: 0 <= j < i ==> !EndsLine(keys[j])
    ensures FirstEnd(keys) == Some(i)
  {
    if i > 0 {
      EndAt(keys[1..], i - 1);
    }
  }

  /**
   * read_line of the first shell: the edited line and the number of keys
   * consumed, CR/LF included; None while no CR/LF has arrived.
   */
  function FirstShellLine(keys: seq<int>): (r: Option<(string, nat)>)
    ensures r.Some? ==> |r.value.0| <= LINE_CAP && PrintableText(r.value.0) && 0 < r.value.1 <= |keys|
    ensures r.None? <==> FirstEnd(keys).None?
  {
    match FirstEnd(keys)
    case None => None
    case Some(k) => Some((Edit([], keys[..k]), k + 1))
  }

  /**
   * read_line of the second shell from buffer contents buf: like the
   * first, except that it also returns, without waiting for CR/LF, once
   * the buffer holds 255 characters.
   */
  function SecondShellLine(buf: string, keys: seq<int>): (r: Option<(string, nat)>)
    requires |buf| <= LINE_CAP
    ensures r.Some? ==> |r.value.0| <= LINE_CAP && r.value.1 <= |keys|
    decreases |keys|
  {
    if |buf| == LINE_CAP then Some((buf, 0))
    else if keys == [] then None
    else if EndsLine(keys[0]) then Some((buf, 1))
    else match SecondShellLine(EditStep(buf, keys[0]), keys[1..])
      case None => None
      case Some((line, n)) => Some((line, n + 1))
  }

  /** A typed line that fits, then Enter, is what the first shell's read_line returns. */
  lemma FirstShellReadsTypedLine(s: string)
    requires PrintableText(s) && |s| <= LINE_CAP
    ensures FirstShellLine(KeysOf(s) + [KEY_CR]) == Some((s, |s| + 1))
  {
    var keys := KeysOf(s) + [KEY_CR];
    forall j | 0 <= j < |s|
      ensures !EndsLine(keys[j])
    {
      assert keys[j] == s[j] as int && Printable(s[j] as int);
    }
    EndAt(keys, |s|);
    assert keys[..|s|] == KeysOf(s);
    assert [] + s == s;
    TypeText([], s);
  }

  /** Typed text that fits ends the same line in the second shell. */
  lemma {:induction false} SecondShellReadsTypedLine(buf: string, s: string)
    requires PrintableText(s) && |buf| + |s| < LINE_CAP
    ensures SecondShellLine(buf, KeysOf(s) + [KEY_CR]) == Some((buf + s, |s| + 1))
    decreases |s|
  {
    var keys := KeysOf(s) + [KEY_CR];
    if s == [] {
      assert keys == [KEY_CR] && buf + s == buf;
    } else {
      TypeOne(buf, s);
      assert keys[0] == KeysOf(s)[0] && keys[1..] == KeysOf(s[1..]) + [KEY_CR];
      SecondShellReadsTypedLine(buf + [s[0]], s[1..]);
    }
  }

  /**
   * A line of 255 printable characters: the second shell returns it as
   * soon as the last one is typed, using no CR/LF, so a following key
   * starts the next read.
   */
  lemma {:induction false} SecondShellStopsWhenFull(buf: string, s: string, more: seq<int>)
    requires PrintableText(s) && |buf| + |s| == LINE_CAP
    ensures SecondShellLine(buf, KeysOf(s) + more) == Some((buf + s, |s|))
    decreases |s|
  {
    if s != [] {
      var keys := KeysOf(s) + more;
      TypeOne(buf, s);
      assert keys[0] == KeysOf(s)[0] && keys[1..] == KeysOf(s[1..]) + more;
      SecondShellStopsWhenFull(buf + [s[0]], s[1..], more);
    } else {
      assert buf + s == buf;
    }
  }

  /** The static input buffer of read_line. */
  class LineReader {
    var inputBuffer: array<char>

    constructor ()
      ensures fresh(inputBuffer) && inputBuffer.Length == MAX_COMMAND_LEN
    {
      inputBuffer := new char[MAX_COMMAND_LEN](_ => '\0');
    }

    /**
     * read_line of the first shell over the keys that arrive: returns the
     * line and the keys consumed once CR/LF arrives, the line then also
     * NUL-terminated in the buffer; None while the keys run out first.
     */
    method ReadLineFirst(keys: seq<int>) returns (r: Option<(string, nat)>)
      requires inputBuffer.Length == MAX_COMMAND_LEN
      modifies inputBuffer
      ensures r == FirstShellLine(keys)
      ensures r.Some? ==> CString(inputBuffer[..]) == r.value.0
    {
      var index := 0;
      var i := 0;
      while i < |keys|
        invariant 0 <= i <= |keys| && 0 <= index <= LINE_CAP
        invariant forall j :: 0 <= j < i ==> !EndsLine(keys[j])
        invariant inputBuffer[..index] == Edit([], keys[..i])
      {
        var c := keys[i];
        if EndsLine(c) {
          EndAt(keys, i);
          ghost var line := Edit([], keys[..i]);
          assert PrintableText(line);
          Terminate(index);
          assert inputBuffer[..index] == line;
          return Some((inputBuffer[..index], i + 1));
        }
        EditAppend([], keys[..i], c);
        assert keys[..i + 1] == keys[..i] + [c];
        index := EditKeyFirst(index, c);
        i := i + 1;
      }
      assert FirstEnd(keys).None?;
      return None;
    }

    /**
     * read_line of the second shell: the same loop, guarded by idx < 255,
     * so a full buffer ends the line as CR/LF does.
     */
    method ReadLineSecond(keys: seq<int>) returns (r: Option<(string, nat)>)
      requires inputBuffer.Length == MAX_COMMAND_LEN
      modifies inputBuffer
      ensures r == SecondShellLine([], keys)
      ensures r.Some? ==> CString(inputBuffer[..]) == r.value.0
    {
      var idx := 0;
      var i := 0;
      while idx < LINE_CAP
        invariant 0 <= i <= |keys| && 0 <= idx <= LINE_CAP
        invariant PrintableText(inputBuffer[..idx])
        invariant SecondShellLine([], keys) == Shifted(SecondShellLine(inputBuffer[..idx], keys[i..]), i)
        decreases |keys| - i, LINE_CAP - idx
      {
        if i == |keys| {
          return None;
        }
        var c := keys[i];
        assert keys[i..][1..] == keys[i + 1..];
        if EndsLine(c) {
          Terminate(idx);
          return Some((inputBuffer[..idx], i + 1));
        }
        ghost var before := inputBuffer[..idx];
        ShiftedStep(SecondShellLine(EditStep(before, c), keys[i + 1..]), i);
        idx := EditKeySecond(idx, c);
        i := i + 1;
      }
      Terminate(idx);
      return Some((inputBuffer[..idx], i));
    }

    /** input_buffer[idx] = '\0': the line read so far becomes the C string in the buffer. */
    method Terminate(idx: int)
      requires 0 <= idx < inputBuffer.Length && PrintableText(inputBuffer[..idx])
      modifies inputBuffer
      ensures inputBuffer[..idx] == old(inputBuffer[..idx]) && CString(inputBuffer[..]) == inputBuffer[..idx]
    {
      PrintableHasNoNul(inputBuffer[..idx]);
      inputBuffer[idx] := '\0';
      assert inputBuffer[..] == inputBuffer[..idx] + ['\0'] + inputBuffer[idx + 1..];
      CStringOfTerminated(inputBuffer[..idx], inputBuffer[idx + 1..]);
    }

    /** The body of the first shell's loop for a key that does not end the line. */
    method EditKeyFirst(index: int, c: int) returns (next: int)
      requires inputBuffer.Length == MAX_COMMAND_LEN && 0 <= index <= LINE_CAP && !EndsLine(c)
      modifies inputBuffer
      ensures 0 <= next <= LINE_CAP && inputBuffer[..next] == EditStep(old(inputBuffer[..index]), c)
    {
      next := index;
      if Erases(c) {
        if index > 0 {
          next := index - 1;
        }
      } else if Printable(c) {
        if index < LINE_CAP {
          inputBuffer[index] := c as char;
          next := index + 1;
        }
      }
    }

    /**
     * The body of the second shell's loop for a key that does not end the
     * line; the loop guard has already checked idx < 255.
     */
    method EditKeySecond(idx: int, c: int) returns (next: int)
      requires inputBuffer.Length == MAX_COMMAND_LEN && 0 <= idx < LINE_CAP && !EndsLine(c)
      requires PrintableText(inputBuffer[..idx])
      modifies inputBuffer
      ensures 0 <= next <= LINE_CAP && inputBuffer[..next] == EditStep(old(inputBuffer[..idx]), c)
      ensures PrintableText(inputBuffer[..next])
    {
      next := idx;
      if Erases(c) {
        if idx > 0 {
          next := idx - 1;
        }
      } else if Printable(c) {
        inputBuffer[idx] := c as char;
        next := idx + 1;
      }
    }
  }

  /** A result of reading from key i on, counted from the start. */
  function Shifted(r: Option<(string, nat)>, i: nat): Option<(string, nat)> {
    match r
    case None => None
    case Some((line, n)) => Some((line, n + i))
  }

  lemma ShiftedStep(r: Option<(string, nat)>, i: nat)
    ensures Shifted(match r case None => None case Some((line, n)) => Some((line, n + 1)), i) == Shifted(r, i + 1)
  {
  }

  /**
   * The command lines shell_loop hands to execute_command for a stream of
   * keys, starting from buffer contents buf: each CR/LF ends a line, and an
   * empty line is not run.
   */
  function Commands(buf: string, keys: seq<int>): (cs: seq<string>)
    requires |buf| <= LINE_CAP
    ensures forall i :: 0 <= i < |cs| ==> cs[i] != [] && |cs[i]| <= LINE_CAP
    decreases |keys|
  {
    if keys == [] then []
    else if EndsLine(keys[0]) then (if buf == [] then [] else [buf]) + Commands([], keys[1..])
    else Commands(EditStep(buf, keys[0]), keys[1..])
  }

  /**
   * A typed command line, then Enter, runs exactly that command when it is
   * not empty.
   */
  lemma {:induction false} TypedCommandRuns(buf: string, s: string, rest: seq<int>)
    requires PrintableText(s) && |buf| + |s| <= LINE_CAP && buf + s != []
    ensures Commands(buf, KeysOf(s) + [KEY_CR] + rest) == [buf + s] + Commands([], rest)
    decreases |s|
  {
    var keys := KeysOf(s) + [KEY_CR] + rest;
    if s == [] {
      assert keys[0] == KEY_CR && keys[1..] == rest && buf + s == buf;
    } else {
      TypeOne(buf, s);
      assert keys[0] == KeysOf(s)[0] && keys[1..] == KeysOf(s[1..]) + [KEY_CR] + rest;
      TypedCommandRuns(buf + [s[0]], s[1..], rest);
    }
  }

  /** command_buffer and cmd_index of shell_loop. */
  class CommandLine {
    var commandBuffer: array<char>
    var cmdIndex: int

    ghost predicate Valid()
      reads this
    {
      commandBuffer.Length == MAX_COMMAND_LEN && 0 <= cmdIndex <= LINE_CAP
    }

    /** What has been typed of the current command. */
    ghost function Pending(): (p: string)
      reads this, commandBuffer
      requires Valid()
      ensures |p| <= LINE_CAP
    {
      commandBuffer[..cmdIndex]
    }

    constructor ()
      ensures Valid() && fresh(commandBuffer) && Pending() == []
    {
      commandBuffer := new char[MAX_COMMAND_LEN](_ => '\0');
      cmdIndex := 0;
    }

    /**
     * One key of shell_loop. CR/LF NUL-terminates the buffer, returns the
     * command to run when the line is not empty, and starts a new line;
     * any other key is edited in.
     */
    method Key(c: int) returns (command: Option<string>)
      requires Valid()
      modifies this, commandBuffer
      ensures Valid() && commandBuffer == old(commandBuffer)
      ensures EndsLine(c) ==> Pending() == [] && command == if old(Pending()) != [] then Some(old(Pending())) else None
      ensures !EndsLine(c) ==> Pending() == EditStep(old(Pending()), c) && command == None
    {
      command := None;
      if EndsLine(c) {
        commandBuffer[cmdIndex] := '\0';
        if cmdIndex > 0 {
          command := Some(commandBuffer[..cmdIndex]);
        }
        cmdIndex := 0;
        commandBuffer[0] := '\0';
      } else if Erases(c) {
        if cmdIndex > 0 {
          cmdIndex := cmdIndex - 1;
        }
      } else if Printable(c) {
        if cmdIndex < LINE_CAP {
          commandBuffer[cmdIndex] := c as char;
          cmdIndex := cmdIndex + 1;
        }
      }
    }

    /** shell_loop over a stream of keys: the commands it runs, in order. */
    method Run(keys: seq<int>) returns (commands: seq<string>)
      requires Valid()
      modifies this, commandBuffer
      ensures Valid() && commandBuffer == old(commandBuffer)
      ensures commands + Commands(Pending(), []) == Commands(old(Pending()), keys)
      ensures FirstEnd(keys).None? ==> Pending() == Edit(old(Pending()), keys)
    {
      commands := [];
      var i := 0;
      ghost var start := Pending();
      ghost var typed := start;
      while i < |keys|
        invariant 0 <= i <= |keys| && Valid() && commandBuffer == old(commandBuffer)
        invariant Pending() == typed
        invariant commands + Commands(typed, keys[i..]) == Commands(start, keys)
        invariant FirstEnd(keys[..i]).None? ==> typed == Edit(start, keys[..i])
      {
        ghost var before := typed;
        ghost var done := commands;
        var command := Key(keys[i]);
        if command.Some? {
          commands := commands + [command.value];
        }
        typed := if EndsLine(keys[i]) then [] else EditStep(typed, keys[i]);
        CommandsOneMore(keys, i, start, done, before, command, typed);
        EditOneMore(keys, i, start, before, typed);
        i := i + 1;
      }
      assert keys[..i] == keys;
    }
  }

  /** The invariant step of Run for a CR/LF: the typed line, when not empty, is the next command. */
  lemma CommandsAtEnd(keys: seq<int>, i: nat, before: string)
    requires i < |keys| && |before| <= LINE_CAP && EndsLine(keys[i])
    ensures Commands(before, keys[i..]) == (if before == [] then [] else [before]) + Commands([], keys[i + 1..])
  {
    assert keys[i..][0] == keys[i] && keys[i..][1..] == keys[i + 1..];
  }

  /** The invariant step of Run for any other key: it edits the typed line. */
  lemma CommandsAtEdit(keys: seq<int>, i: nat, before: string)
    requires i < |keys| && |before| <= LINE_CAP && !EndsLine(keys[i])
    ensures Commands(before, keys[i..]) == Commands(EditStep(before, keys[i]), keys[i + 1..])
  {
    assert keys[i..][0] == keys[i] && keys[i..][1..] == keys[i + 1..];
  }

  /** The command invariant of Run after one more key. */
  lemma CommandsOneMore(keys: seq<int>, i: nat, start: string, done: seq<string>, before: string,
                        command: Option<string>, after: string)
    requires i < |keys| && |before| <= LINE_CAP && |start| <= LINE_CAP
    requires done + Commands(before, keys[i..]) == Commands(start, keys)
    requires EndsLine(keys[i]) ==> after == [] && command == if before != [] then Some(before) else None
    requires !EndsLine(keys[i]) ==> after == EditStep(before, keys[i]) && command == None
    ensures (if command.Some? then done + [command.value] else done) + Commands(after, keys[i + 1..]) == Commands(start, keys)
  {
    if EndsLine(keys[i]) {
      CommandsAtEnd(keys, i, before);
      if before != [] {
        assert done + [before] + Commands([], keys[i + 1..]) == done + ([before] + Commands([], keys[i + 1..]));
      }
    } else {
      CommandsAtEdit(keys, i, before);
    }
  }

  /** One editing key more extends the edit of the keys so far. */
  lemma EditOneMore(keys: seq<int>, i: nat, start: string, before: string, after: string)
    requires i < |keys|
    requires FirstEnd(keys[..i]).None? ==> before == Edit(start, keys[..i])
    requires after == if EndsLine(keys[i]) then [] else EditStep(before, keys[i])
    ensures FirstEnd(keys[..i + 1]).None? ==> after == Edit(start, keys[..i + 1])
  {
    assert keys[..i + 1] == keys[..i] + [keys[i]];
    assert keys[..i + 1][i] == keys[i];
    if FirstEnd(keys[..i + 1]).None? {
      assert !EndsLine(keys[..i + 1][i]);
      forall j | 0 <= j < i
        ensures !EndsLine(keys[..i][j])
      {
        assert keys[..i][j] == keys[..i + 1][j];
      }
      EditAppend(start, keys[..i], keys[i]);
    }
  }

  /**
   * Between lines shell_loop and read_line of the first shell follow the
   * same rules: the command run for a first line is exactly what
   * read_line would return for it, when that is not empty.
   */
  lemma ShellLoopMatchesReadLine(keys: seq<int>)
    requires FirstShellLine(keys).Some? && FirstShellLine(keys).value.0 != []
    ensures var (line, n) := FirstShellLine(keys).value;
      Commands([], keys) == [line] + Commands([], keys[n..])
  {
    var k := FirstEnd(keys).value;
    CommandsPrefix([], keys, k);
  }

  lemma {:induction false} CommandsPrefix(buf: string, keys: seq<int>, k: nat)
    requires |buf| <= LINE_CAP && k < |keys| && EndsLine(keys[k])
    requires forall j :: 0 <= j < k ==> !EndsLine(keys[j])
    ensures Commands(buf, keys) == (if Edit(buf, keys[..k]) == [] then [] else [Edit(buf, keys[..k])]) + Commands([], keys[k + 1..])
    decreases k
  {
    if k > 0 {
      assert keys[1..][..k - 1] == keys[1..k];
      assert keys[..k][1..] == keys[1..k];
      assert keys[1..][k..] == keys[k + 1..];
      CommandsPrefix(EditStep(buf, keys[0]), keys[1..], k - 1);
    }
  }
}
