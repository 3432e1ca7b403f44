/**
 Transactions of text edits. Positions are line and column in characters; the document takes byte
 offsets into UTF-8, so the offset helpers work in bytes and the specification in characters.
 */
module Edits {
  datatype CursorIndex = CursorIndex(line: nat, col: nat)

  datatype Operation =
    | Insert(position: CursorIndex, content: string)
    | Delete(position: CursorIndex, length: nat)
    | Swap(position: CursorIndex, length: nat, content: string)

  type Transaction = seq<Operation>

  // ---- Specification, in characters ----

  /** The index after the `line`-th newline, or the end of a text with fewer lines. */
  function LineStart(text: string, line: nat): (start: nat)
    ensures start <= |text|
  {
    if line == 0 || text == [] then 0
    else 1 + LineStart(text[1..], if text[0] == '\n' then line - 1 else line)
  }

  /** Columns run on through line breaks and stop at the end of the text. */
  function Offset(text: string, position: CursorIndex): (offset: nat)
    ensures offset <= |text|
  {
    var offset := LineStart(text, position.line) + position.col;
    if offset <= |text| then offset else |text|
  }

  /** How many of `length` characters there are from the position on. */
  function Removable(text: string, position: CursorIndex, length: nat): (n: nat)
    ensures Offset(text, position) + n <= |text|
  {
    var left := |text| - Offset(text, position);
    if length <= left then length else left
  }

  /** Replaces the run of up to `length` characters at `position`, in place. */
  function Replace(text: string, position: CursorIndex, length: nat, content: string): string {
    var from := Offset(text, position);
    text[..from] + content + text[from + Removable(text, position, length)..]
  }

  /** The documented meaning of one operation. */
  function Edit(text: string, op: Operation): string {
    match op
    case Insert(position, content) => Replace(text, position, 0, content)
    case Delete(position, length) => Replace(text, position, length, "")
    case Swap(position, length, content) => Replace(text, position, length, content)
  }

  /** Each operation sees the text the operations before it left. */
  function EditAll(text: string, ops: Transaction): string
    decreases ops
  {
    if ops == [] then text else EditAll(Edit(text, ops[0]), ops[1..])
  }

  lemma {:induction false} EditAllAppends(text: string, a: Transaction, b: Transaction)
    ensures EditAll(text, a + b) == EditAll(EditAll(text, a), b)
    decreases a
  {
    if a == [] {
      assert a + b == b;
    } else {
      assert (a + b)[0] == a[0] && (a + b)[1..] == a[1..] + b;
      EditAllAppends(Edit(text, a[0]), a[1..], b);
    }
  }

  /** A line that starts inside a common prefix starts at the same place in both texts. */
  lemma {:induction false} LineStartInPrefix(a: string, x: string, y: string, line: nat)
    requires LineStart(a + x, line) <= |a| && (x == [] ==> y == [])
    ensures LineStart(a + y, line) == LineStart(a + x, line)
    decreases a
  {
    if line > 0 {
      if a == [] {
        assert a + x == x && a + y == y;
      } else {
        var next := if a[0] == '\n' then line - 1 else line;
        LineStartStep(a, x, line);
        LineStartStep(a, y, line);
        LineStartInPrefix(a[1..], x, y, next);
      }
    }
  }

  lemma LineStartStep(a: string, x: string, line: nat)
    requires a != [] && line > 0
    ensures LineStart(a + x, line) == 1 + LineStart(a[1..] + x, if a[0] == '\n' then line - 1 else line)
  {
    assert (a + x)[0] == a[0] && (a + x)[1..] == a[1..] + x;
  }

  /** Deleting at a position does not move the position. */
  lemma DeleteKeepsOffset(text: string, position: CursorIndex, length: nat)
    ensures Offset(Edit(text, Delete(position, length)), position) == Offset(text, position)
  {
    var from, n := Offset(text, position), Removable(text, position, length);
    var a, x, y := text[..from], text[from..], text[from + n..];
    assert a + x == text;
    assert a + "" + y == a + y;
    LineStartInPrefix(a, x, y, position.line);
  }

  /** A swap, applied as a delete and an insert at the same position, is one in-place replacement. */
  lemma SwapIsDeleteThenInsert(text: string, position: CursorIndex, length: nat, content: string)
    ensures Edit(text, Swap(position, length, content))
            == Edit(Edit(text, Delete(position, length)), Insert(position, content))
  {
    DeleteKeepsOffset(text, position, length);
    var from, n := Offset(text, position), Removable(text, position, length);
    var cut := Edit(text, Delete(position, length));
    assert cut == text[..from] + text[from + n..];
    assert cut[..from] == text[..from] && cut[from..] == text[from + n..];
  }

  // ---- Where an edit lands, told by the text around it ----

  function Newlines(s: string): nat {
    if s == [] then 0 else (if s[0] == '\n' then 1 else 0) + Newlines(s[1..])
  }

  /** `lines` complete lines. */
  predicate CompleteLines(head: string, lines: nat) {
    Newlines(head) == lines && (head == [] || head[|head| - 1] == '\n')
  }

  lemma {:induction false} LineStartsBehind(head: string, rest: string, line: nat)
    requires CompleteLines(head, line)
    ensures LineStart(head + rest, line) == |head|
  {
    if head == [] {
      assert head + rest == rest;
    } else {
      assert (head + rest)[0] == head[0] && (head + rest)[1..] == head[1..] + rest;
      assert line > 0 by { LastNewlineCounts(head); }
      LineStartsBehind(head[1..], rest, if head[0] == '\n' then line - 1 else line);
    }
  }

  lemma {:induction false} LastNewlineCounts(s: string)
    requires s != [] && s[|s| - 1] == '\n'
    ensures Newlines(s) > 0
  {
    if |s| > 1 { LastNewlineCounts(s[1..]); }
  }

  lemma {:induction false} NoSuchLine(text: string, line: nat)
    requires Newlines(text) < line
    ensures LineStart(text, line) == |text|
  {
    if text != [] { NoSuchLine(text[1..], if text[0] == '\n' then line - 1 else line); }
  }

  /** Part of a text: all `wanted` characters of it, or fewer where the text ends. */
  predicate Clamped(part: string, wanted: nat, rest: string) {
    |part| == wanted || (|part| < wanted && rest == [])
  }

  /**
   An edit replaces the run that starts `col` characters after the line's start, and the text around
   it stays; a column or a run that is longer than the text ends with the text.
   */
  lemma EditSplices(head: string, before: string, run: string, rest: string,
                    line: nat, col: nat, length: nat, content: string)
    requires CompleteLines(head, line) && Clamped(before, col, run + rest) && Clamped(run, length, rest)
    ensures var text, at := head + before + run + rest, CursorIndex(line, col);
            && Edit(text, Swap(at, length, content)) == head + before + content + rest
            && Edit(text, Delete(at, length)) == head + before + rest
            && Edit(text, Insert(at, content)) == head + before + content + (run + rest)
  {
    var text, at := head + before + run + rest, CursorIndex(line, col);
    assert text == head + (before + run + rest);
    LineStartsBehind(head, before + run + rest, line);
    assert Offset(text, at) == |head + before|;
    assert Removable(text, at, length) == |run|;
    assert text[..|head + before|] == head + before && text[|head + before|..] == run + rest;
    assert text[|head + before| + |run|..] == rest;
    assert head + before + "" == head + before;
  }

  /** On a line that is not there, an insert appends and a delete does nothing. */
  lemma EditPastTheEnd(text: string, line: nat, col: nat, length: nat, content: string)
    requires Newlines(text) < line
    ensures var at := CursorIndex(line, col);
            && Edit(text, Swap(at, length, content)) == text + content
            && Edit(text, Delete(at, length)) == text
            && Edit(text, Insert(at, content)) == text + content
  {
    NoSuchLine(text, line);
    assert text[..|text|] == text && text[|text|..] == "";
    assert text + "" == text;
  }

  // ---- Byte offsets ----

  function Utf8Len(c: char): (n: nat)
    ensures 1 <= n <= 4
  {
    var u := c as int;
    if u < 0x80 then 1 else if u < 0x800 then 2 else if u < 0x10000 then 3 else 4
  }

  function Bytes(s: string): nat {
    if s == [] then 0 else Utf8Len(s[0]) + Bytes(s[1..])
  }

  /** UTF-8 as section 3 of RFC 3629 lays out its bits. */
  function Utf8(c: char): seq<int> {
    var u := c as int;
    var high, low := u / 0x40, u % 0x40;
    if u < 0x80 then [u]
    else if u < 0x800 then [0xC0 + high, 0x80 + low]
    else if u < 0x10000 then [0xE0 + high / 0x40, 0x80 + high % 0x40, 0x80 + low]
    else [0xF0 + high / 0x40 / 0x40, 0x80 + high / 0x40 % 0x40, 0x80 + high % 0x40, 0x80 + low]
  }

  function EncodeText(s: string): seq<int> {
    if s == [] then [] else Utf8(s[0]) + EncodeText(s[1..])
  }

  /** The code point at the front; the range of the first byte tells how many bytes it has. */
  function FirstCodePoint(bytes: seq<int>): int
    requires |bytes| >= 4
  {
    var b0, b1, b2, b3 := bytes[0], bytes[1] - 0x80, bytes[2] - 0x80, bytes[3] - 0x80;
    if b0 < 0x80 then b0
    else if b0 < 0xE0 then (b0 - 0xC0) * 0x40 + b1
    else if b0 < 0xF0 then ((b0 - 0xE0) * 0x40 + b1) * 0x40 + b2
    else (((b0 - 0xF0) * 0x40 + b1) * 0x40 + b2) * 0x40 + b3
  }

  /** Whatever follows a character, its encoding gives it back. */
  lemma Utf8Decodes(c: char, rest: seq<int>)
    requires |rest| >= 3
    ensures FirstCodePoint(Utf8(c) + rest) == c as int
  {
    var u := c as int;
    SixBits(u);
    SixBits(u / 0x40);
    SixBits(u / 0x40 / 0x40);
  }

  lemma SixBits(u: int)
    requires 0 <= u
    ensures u == u / 0x40 * 0x40 + u % 0x40 && 0 <= u % 0x40 < 0x40
  {
  }

  /** The byte lengths used for offsets are those of the encoding. */
  lemma {:induction false} BytesAreUtf8(s: string)
    ensures Bytes(s) == |EncodeText(s)|
  {
    if s != [] {
      assert Utf8Len(s[0]) == |Utf8(s[0])|;
      BytesAreUtf8(s[1..]);
    }
  }

  /** The character index at a byte offset. */
  function CharIndex(text: string, byte: nat): (i: nat)
    ensures i <= |text|
  {
    if text == [] || byte < Utf8Len(text[0]) then 0
    else 1 + CharIndex(text[1..], byte - Utf8Len(text[0]))
  }

  lemma {:induction false} BytesAppend(a: string, b: string)
    ensures Bytes(a + b) == Bytes(a) + Bytes(b)
  {
    if a == [] {
      assert a + b == b;
    } else {
      assert (a + b)[0] == a[0] && (a + b)[1..] == a[1..] + b;
      BytesAppend(a[1..], b);
    }
  }

  /** Character offsets and their byte offsets determine each other. */
  lemma {:induction false} CharIndexInverts(text: string, i: nat)
    requires i <= |text|
    ensures CharIndex(text, Bytes(text[..i])) == i
  {
    if i > 0 {
      assert text[..i][0] == text[0] && text[..i][1..] == text[1..][..i - 1];
      CharIndexInverts(text[1..], i - 1);
    }
  }

  lemma BytesStep(text: string, i: nat)
    requires i < |text|
    ensures Bytes(text[..i + 1]) == Bytes(text[..i]) + Utf8Len(text[i])
  {
    assert text[..i + 1] == text[..i] + [text[i]];
    BytesAppend(text[..i], [text[i]]);
    assert [text[i]][1..] == [];
  }

  method LineStartByte(text: string, line: nat) returns (byte: nat)
    ensures byte == Bytes(text[..LineStart(text, line)])
  {
    if line == 0 {
      return 0;
    }
    var newlinesSeen := 0;
    byte := 0;
    assert text[0..] == text;
    for i := 0 to |text|
      invariant newlinesSeen < line
      invariant byte == Bytes(text[..i])
      invariant LineStart(text, line) == i + LineStart(text[i..], line - newlinesSeen)
    {
      BytesStep(text, i);
      assert text[i..][1..] == text[i + 1..];
      if text[i] == '\n' {
        newlinesSeen := newlinesSeen + 1;
        if newlinesSeen == line {
          return byte + Utf8Len(text[i]);
        }
      }
      byte := byte + Utf8Len(text[i]);
    }
    assert text[..|text|] == text;
  }

  method LineColToByte(text: string, position: CursorIndex) returns (byte: nat)
    ensures byte == Bytes(text[..Offset(text, position)])
  {
    byte := LineStartByte(text, position.line);
    var start := CharIndex(text, byte);
    CharIndexInverts(text, LineStart(text, position.line));
    var taken := 0;
    while taken < position.col && start + taken < |text|
      invariant taken <= position.col && start + taken <= |text|
      invariant byte == Bytes(text[..start + taken])
      decreases position.col - taken
    {
      BytesStep(text, start + taken);
      byte := byte + Utf8Len(text[start + taken]);
      taken := taken + 1;
    }
  }

  method ByteSpan(text: string, position: CursorIndex, charLength: nat) returns (start: nat, length: nat)
    ensures start == Bytes(text[..Offset(text, position)])
    ensures start + length == Bytes(text[..Offset(text, position) + Removable(text, position, charLength)])
  {
    start := LineColToByte(text, position);
    var first := CharIndex(text, start);
    CharIndexInverts(text, Offset(text, position));
    var end, taken := start, 0;
    while taken < charLength && first + taken < |text|
      invariant taken <= charLength && first + taken <= |text|
      invariant end == Bytes(text[..first + taken]) && start <= end
      decreases charLength - taken
    {
      BytesStep(text, first + taken);
      end := end + Utf8Len(text[first + taken]);
      taken := taken + 1;
    }
    length := end - start;
  }

  /** The document's own insert, at a byte offset. */
  function InsertAt(text: string, byte: nat, data: string): string {
    var i := CharIndex(text, byte);
    text[..i] + data + text[i..]
  }

  /** The document's own removal of a range of bytes. */
  function RemoveRange(text: string, byte: nat, length: nat): string {
    var i, j := CharIndex(text, byte), CharIndex(text, byte + length);
    if i <= j then text[..i] + text[j..] else text
  }

  /** `tx_utils::insert_char` and `insert_text`. */
  method InsertText(text: string, position: CursorIndex, data: string) returns (edited: string)
    ensures edited == Edit(text, Insert(position, data))
  {
    var offset := LineColToByte(text, position);
    CharIndexInverts(text, Offset(text, position));
    edited := InsertAt(text, offset, data);
  }

  /** `tx_utils::delete_char` and `delete_range`. */
  method DeleteRange(text: string, position: CursorIndex, delta: nat) returns (edited: string)
    ensures edited == Edit(text, Delete(position, delta))
  {
    var offset, removable := ByteSpan(text, position, delta);
    var from, n := Offset(text, position), Removable(text, position, delta);
    CharIndexInverts(text, from);
    CharIndexInverts(text, from + n);
    if removable > 0 {
      return RemoveRange(text, offset, removable);
    }
    return text;
  }
}
