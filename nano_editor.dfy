/**
 * The text collection of nano_editor in shell-based-pico-os: lines are
 * read one at a time into a 2048-character buffer. A line equal to "SAVE"
 * ends the editing and is not stored; any other line is stored with a
 * newline after it when line, newline and the final NUL still fit, and is
 * dropped otherwise. Editing also ends once 2047 characters are stored.
 * Writing the buffer to the file system is not modelled.
 */
module NanoEditor {
  import opened CText

  const CONTENT_SIZE: int := 2048
  const SAVE_LINE: string := "SAVE"

  /** A line is stored when it, its newline and the NUL fit after acc. */
  predicate Fits(acc: string, line: string) {
    |acc| + |line| + 1 < CONTENT_SIZE
  }

  /**
   * The text nano_editor ends with after the lines read_line returns,
   * starting from the text acc; None while it is still waiting for a line.
   */
  function Collected(acc: string, lines: seq<string>): (r: Option<string>)
    requires |acc| < CONTENT_SIZE
    ensures r.Some? ==> |r.value| < CONTENT_SIZE && acc <= r.value
    decreases |lines|
  {
    if |acc| >= CONTENT_SIZE - 1 then Some(acc)
    else if lines == [] then None
    else
      var line := CString(lines[0]);
      if line == SAVE_LINE then Some(acc)
      else Collected(if Fits(acc, line) then acc + line + "\n" else acc, lines[1..])
  }

  /** Each line followed by a newline. */
  function Joined(lines: seq<string>): string {
    if lines == [] then [] else lines[0] + "\n" + Joined(lines[1..])
  }

  /** "SAVE" ends the editing at once and adds nothing. */
  lemma SaveStops(acc: string, rest: seq<string>)
    requires |acc| < CONTENT_SIZE - 1
    ensures Collected(acc, [SAVE_LINE] + rest) == Some(acc)
  {
    CStringOfPlain(SAVE_LINE);
  }

  /**
   * Lines other than "SAVE" that fit are stored exactly, each with its
   * newline, and the "SAVE" after them ends the text.
   */
  lemma {:induction false} StoresLinesThatFit(acc: string, lines: seq<string>, rest: seq<string>)
    requires forall i :: 0 <= i < |lines| ==> '\0' !in lines[i] && lines[i] != SAVE_LINE
    requires |acc| + |Joined(lines)| < CONTENT_SIZE - 1
    ensures Collected(acc, lines + [SAVE_LINE] + rest) == Some(acc + Joined(lines))
    decreases |lines|
  {
    if lines == [] {
      SaveStops(acc, rest);
      assert acc + Joined(lines) == acc;
      assert lines + [SAVE_LINE] + rest == [SAVE_LINE] + rest;
    } else {
      var tail := lines[1..];
      StoreOne(acc, lines[0], tail + [SAVE_LINE] + rest);
      assert lines + [SAVE_LINE] + rest == [lines[0]] + (tail + [SAVE_LINE] + rest);
      JoinedStep(acc, lines);
      forall i | 0 <= i < |tail|
        ensures '\0' !in tail[i] && tail[i] != SAVE_LINE
      {
        assert tail[i] == lines[i + 1];
      }
      StoresLinesThatFit(acc + lines[0] + "\n", tail, rest);
    }
  }

  /** A line other than "SAVE" that fits is stored with its newline. */
  lemma StoreOne(acc: string, line: string, more: seq<string>)
    requires '\0' !in line && line != SAVE_LINE && |acc| + |line| + 1 < CONTENT_SIZE - 1
    ensures Collected(acc, [line] + more) == Collected(acc + line + "\n", more)
  {
    CStringOfPlain(line);
    assert ([line] + more)[0] == line && ([line] + more)[1..] == more;
  }

  lemma JoinedStep(acc: string, lines: seq<string>)
    requires lines != []
    ensures acc + Joined(lines) == (acc + lines[0] + "\n") + Joined(lines[1..])
  {
  }

  /** A line too long for the space left is skipped; later lines are still read. */
  lemma SkipsLineThatDoesNotFit(acc: string, line: string, rest: seq<string>)
    requires |acc| < CONTENT_SIZE - 1 && CString(line) != SAVE_LINE && !Fits(acc, CString(line))
    ensures Collected(acc, [line] + rest) == Collected(acc, rest)
  {
    assert ([line] + rest)[1..] == rest;
  }

  /** Copy one line into content at index at (the memcpy). */
  method CopyLine(content: array<char>, at: int, line: string)
    requires 0 <= at && at + |line| <= content.Length
    modifies content
    ensures content[..at + |line|] == old(content[..at]) + line
  {
    var i := 0;
    while i < |line|
      invariant 0 <= i <= |line|
      invariant content[..at + i] == old(content[..at]) + line[..i]
    {
      content[at + i] := line[i];
      assert content[..at + i + 1] == content[..at + i] + [line[i]];
      assert line[..i + 1] == line[..i] + [line[i]];
      i := i + 1;
    }
    assert line[..i] == line;
  }

  /**
   * The collection loop of nano_editor over the lines that arrive: the text
   * it saves, or None when the lines run out first.
   */
  method Collect(lines: seq<string>) returns (text: Option<string>)
    ensures text == Collected([], lines)
  {
    var content := new char[CONTENT_SIZE];
    var contentLen := 0;
    var i := 0;
    while contentLen < CONTENT_SIZE - 1
      invariant 0 <= i <= |lines| && 0 <= contentLen < CONTENT_SIZE
      invariant Collected([], lines) == Collected(content[..contentLen], lines[i..])
      decreases |lines| - i
    {
      if i == |lines| {
        return None;
      }
      var line := CString(lines[i]);
      assert lines[i..][1..] == lines[i + 1..];
      if line == SAVE_LINE {
        break;
      }
      if contentLen + |line| + 1 < CONTENT_SIZE {
        CopyLine(content, contentLen, line);
        content[contentLen + |line|] := '\n';
        assert content[..contentLen + |line| + 1] == content[..contentLen + |line|] + "\n";
        contentLen := contentLen + |line| + 1;
      }
      i := i + 1;
    }
    content[contentLen] := '\0';
    text := Some(content[..contentLen]);
  }
}
