/**
 * The command-line editor and tokenizer of lab5 (repeated in lab9):
 * getsUart0 edits the characters typed on UART0 into a NUL-terminated line,
 * parseFields cuts that line into fields in place, and getFieldString,
 * getFieldInteger, str_to_int, str_comp and isCommand read the fields back.
 *
 * Characters are Dafny `char`s standing for the bytes of the UART; the
 * stream read by getcUart0 is a sequence of them.
 */
module CommandLine {
  import opened Wrappers
  import opened MachineInts

  const MaxChars: nat := 80
  const MaxFields: nat := 5
  /** `char buffer[MAX_CHARS + 1]` and `char str[MAX_CHARS + 1]`. */
  const BufferSize: nat := MaxChars + 1

  const NUL: char := '\0'
  const Backspace: char := 8 as char
  const Delete: char := 127 as char
  const CarriageReturn: char := 13 as char
  const LineFeed: char := '\n'

  /* ---------------------------------------------------------------- C strings */

  /** The index of the first NUL in `s`: the length of the C string stored there. */
  function CLength(s: seq<char>): (n: nat)
    requires NUL in s
    ensures n < |s| && s[n] == NUL
    ensures forall j :: 0 <= j < n ==> s[j] != NUL
  {
    if s[0] == NUL then 0
    else
      assert NUL in s[1..] by {
        var k :| 0 <= k < |s| && s[k] == NUL;
        assert s[1..][k - 1] == NUL;
      }
      1 + CLength(s[1..])
  }

  /** The characters of the C string stored in `s`, without its NUL. */
  function CString(s: seq<char>): (t: seq<char>)
    requires NUL in s
    ensures NUL !in t
  {
    s[..CLength(s)]
  }

  /** A NUL at `n` with none before it is where the C string ends. */
  lemma CStringEndsAtFirstNul(s: seq<char>, n: nat)
    requires n < |s| && s[n] == NUL
    requires forall j :: 0 <= j < n ==> s[j] != NUL
    ensures CString(s) == s[..n]
  {
    assert s[CLength(s)] == NUL;
  }

  /** The 81 NULs `getFieldString` clears `str` to. */
  function Zeroes(): (z: seq<char>)
    ensures |z| == BufferSize && forall j :: 0 <= j < BufferSize ==> z[j] == NUL
  {
    seq(BufferSize, _ => NUL)
  }

  /** The text `s` in the 81-character `str`, followed by NULs. */
  function Padded(s: seq<char>): (p: seq<char>)
    requires |s| < BufferSize
    ensures |p| == BufferSize && p[..|s|] == s
    ensures forall j :: |s| <= j < BufferSize ==> p[j] == NUL
  {
    s + seq(BufferSize - |s|, _ => NUL)
  }

  /** Reading the padded text back as a C string gives the text. */
  lemma PaddedReadsBack(s: seq<char>)
    requires |s| < BufferSize && NUL !in s
    ensures NUL in Padded(s) && CString(Padded(s)) == s
  {
    var p := Padded(s);
    assert p[|s|] == NUL;
    forall j | 0 <= j < |s|
      ensures p[j] != NUL
    {
      assert p[j] == s[j];
    }
    CStringEndsAtFirstNul(p, |s|);
  }

  /** Copying one more character of `text` into the padded prefix. */
  lemma PaddedExtend(text: seq<char>, i: nat)
    requires i < |text| < BufferSize
    ensures Padded(text[..i])[i := text[i]] == Padded(text[..i + 1])
  {
    assert text[..i + 1] == text[..i] + [text[i]];
  }

  /* ------------------------------------------------------------- line editor */

  /** The line buffer and `count` while getsUart0 runs. */
  datatype Editor = Editor(buf: seq<char>, count: nat)

  predicate EditorOk(e: Editor)
  {
    |e.buf| == BufferSize && e.count <= MaxChars
  }

  /** The buffer when getsUart0 returns and how many characters it took from the stream. */
  datatype Outcome = Outcome(buf: seq<char>, count: nat, used: nat)

  predicate IsErase(c: char)
  {
    c == Backspace || c == Delete
  }

  /**
   * getsUart0 from editor state `e`, with `input[used..]` still to come.
   * None when the stream ends before the line is complete (the firmware
   * would wait for more characters).
   */
  function Read(e: Editor, input: seq<char>, used: nat): (r: Option<Outcome>)
    requires EditorOk(e) && used <= |input|
    ensures r.Some? ==> |r.value.buf| == BufferSize && r.value.count <= MaxChars
    ensures r.Some? ==> r.value.buf[r.value.count] == NUL && used <= r.value.used <= |input|
    decreases |input| - used
  {
    if e.count == MaxChars then Some(Outcome(e.buf[e.count := NUL], e.count, used))
    else if used == |input| then None
    else
      var c := input[used];
      if e.count > 0 && IsErase(c) then Read(Editor(e.buf, e.count - 1), input, used + 1)
      else if c == CarriageReturn then Some(Outcome(e.buf[e.count := NUL], e.count, used + 1))
      else if c >= ' ' then Read(Editor(e.buf[e.count := c], e.count + 1), input, used + 1)
      else Read(e, input, used + 1)
  }

  /** getsUart0 on buffer `buf` and the stream `input`. */
  function ReadLine(buf: seq<char>, input: seq<char>): Option<Outcome>
    requires |buf| == BufferSize
  {
    Read(Editor(buf, 0), input, 0)
  }

  /** The line the outcome holds: everything before the NUL getsUart0 wrote. */
  function LineOf(o: Outcome): seq<char>
    requires o.count <= |o.buf|
  {
    o.buf[..o.count]
  }

  lemma {:induction false} ReadKeepsPrintable(e: Editor, input: seq<char>, used: nat)
    requires EditorOk(e) && used <= |input|
    requires forall k :: 0 <= k < e.count ==> e.buf[k] >= ' '
    requires Read(e, input, used).Some?
    ensures var o := Read(e, input, used).value;
      forall k :: 0 <= k < o.count ==> o.buf[k] >= ' '
    decreases |input| - used
  {
    if e.count < MaxChars {
      var c := input[used];
      if e.count > 0 && IsErase(c) {
        ReadKeepsPrintable(Editor(e.buf, e.count - 1), input, used + 1);
      } else if c == CarriageReturn {
      } else if c >= ' ' {
        ReadKeepsPrintable(Editor(e.buf[e.count := c], e.count + 1), input, used + 1);
      } else {
        ReadKeepsPrintable(e, input, used + 1);
      }
    }
  }

  /** Every character kept in the line is at least a space: control characters are never stored. */
  lemma LineIsPrintable(buf: seq<char>, input: seq<char>)
    requires |buf| == BufferSize && ReadLine(buf, input).Some?
    ensures forall k :: 0 <= k < |LineOf(ReadLine(buf, input).value)| ==> LineOf(ReadLine(buf, input).value)[k] >= ' '
  {
    ReadKeepsPrintable(Editor(buf, 0), input, 0);
  }

  /** A character that is neither an erase key nor carriage return, and printable. */
  predicate IsTyped(c: char)
  {
    c >= ' ' && !IsErase(c) && c != CarriageReturn
  }

  lemma {:induction false} TypedThenReturn(e: Editor, input: seq<char>, used: nat, typed: seq<char>)
    requires EditorOk(e) && e.count + |typed| < MaxChars
    requires used + |typed| < |input| && input[used..used + |typed|] == typed && input[used + |typed|] == CarriageReturn
    requires forall k :: 0 <= k < |typed| ==> IsTyped(typed[k])
    ensures Read(e, input, used).Some?
    ensures var o := Read(e, input, used).value;
      o.count == e.count + |typed| && LineOf(o) == e.buf[..e.count] + typed && o.used == used + |typed| + 1
    decreases |typed|
  {
    if typed == [] {
      assert input[used] == CarriageReturn;
      assert e.buf[e.count := NUL][..e.count] == e.buf[..e.count];
    } else {
      var c := input[used];
      assert c == typed[0];
      var next := Editor(e.buf[e.count := c], e.count + 1);
      assert input[used + 1..used + 1 + |typed[1..]|] == typed[1..];
      TypedThenReturn(next, input, used + 1, typed[1..]);
      assert next.buf[..next.count] == e.buf[..e.count] + [c];
      assert e.buf[..e.count] + [c] + typed[1..] == e.buf[..e.count] + typed;
    }
  }

  /** A line typed without editing keys and ended by carriage return is stored as typed. */
  lemma TypedLineIsStored(buf: seq<char>, typed: seq<char>, rest: seq<char>)
    requires |buf| == BufferSize && |typed| < MaxChars
    requires forall k :: 0 <= k < |typed| ==> IsTyped(typed[k])
    ensures ReadLine(buf, typed + [CarriageReturn] + rest).Some?
    ensures var o := ReadLine(buf, typed + [CarriageReturn] + rest).value;
      LineOf(o) == typed && o.used == |typed| + 1
  {
    var input := typed + [CarriageReturn] + rest;
    assert input[0..|typed|] == typed;
    TypedThenReturn(Editor(buf, 0), input, 0, typed);
  }

  /** An erase key after a typed character removes it again. */
  lemma EraseUndoesTyping(e: Editor, c: char, erase: char, input: seq<char>)
    requires EditorOk(e) && e.count < MaxChars - 1 && IsTyped(c) && IsErase(erase)
    ensures Read(e, [c, erase] + input, 0) == Read(Editor(e.buf[e.count := c], e.count), [c, erase] + input, 2)
  {
    var s := [c, erase] + input;
    assert s[0] == c && s[1] == erase;
  }

  /**
   * At column 0 backspace is ignored but DEL is not an erase key any more:
   * being at least a space, it is stored as a character.
   */
  lemma EraseAtColumnZero(buf: seq<char>)
    requires |buf| == BufferSize
    ensures ReadLine(buf, [Backspace, CarriageReturn]).Some?
    ensures LineOf(ReadLine(buf, [Backspace, CarriageReturn]).value) == []
    ensures ReadLine(buf, [Delete, CarriageReturn]).Some?
    ensures LineOf(ReadLine(buf, [Delete, CarriageReturn]).value) == [Delete]
  {
    var stored := buf[0 := Delete];
    assert Read(Editor(buf, 0), [Backspace, CarriageReturn], 0) == Read(Editor(buf, 0), [Backspace, CarriageReturn], 1);
    assert Read(Editor(buf, 0), [Delete, CarriageReturn], 0) == Read(Editor(stored, 1), [Delete, CarriageReturn], 1);
    assert stored[1 := NUL][..1] == [Delete];
  }

  lemma {:induction false} FullLineStops(e: Editor, input: seq<char>, used: nat)
    requires EditorOk(e) && used + (MaxChars - e.count) <= |input|
    requires forall k :: used <= k < used + (MaxChars - e.count) ==> IsTyped(input[k])
    ensures Read(e, input, used).Some?
    ensures Read(e, input, used).value.count == MaxChars
    ensures Read(e, input, used).value.used == used + (MaxChars - e.count)
    decreases MaxChars - e.count
  {
    if e.count < MaxChars {
      var c := input[used];
      assert IsTyped(c);
      FullLineStops(Editor(e.buf[e.count := c], e.count + 1), input, used + 1);
    }
  }

  /**
   * After 80 stored characters getsUart0 returns without waiting for
   * carriage return and without reading further.
   */
  lemma EightyCharactersEndTheLine(buf: seq<char>, input: seq<char>)
    requires |buf| == BufferSize && MaxChars <= |input|
    requires forall k :: 0 <= k < MaxChars ==> IsTyped(input[k])
    ensures ReadLine(buf, input).Some?
    ensures |LineOf(ReadLine(buf, input).value)| == MaxChars && ReadLine(buf, input).value.used == MaxChars
  {
    FullLineStops(Editor(buf, 0), input, 0);
  }

  /* ---------------------------------------------------------------- fields */

  /** `47 < c < 58`. */
  predicate IsDigit(c: char)
  {
    '0' <= c <= '9'
  }

  /** `65 < c < 90`, `96 < c < 123`, '-' or '.': the upper-case test leaves out 'A' and 'Z'. */
  predicate IsAlpha(c: char)
  {
    ('A' < c < 'Z') || ('a' <= c <= 'z') || c == '-' || c == '.'
  }

  /** Where parseFields stops. */
  predicate IsTerminator(c: char)
  {
    c == LineFeed || c == NUL
  }

  /** Every other character separates fields. */
  predicate IsDelimiter(c: char)
  {
    !IsDigit(c) && !IsAlpha(c) && !IsTerminator(c)
  }

  lemma UpperCaseEndpointsAreDelimiters()
    ensures IsDelimiter('A') && IsDelimiter('Z')
    ensures !IsDelimiter('B') && !IsDelimiter('Y') && !IsDelimiter('a') && !IsDelimiter('z')
    ensures IsDelimiter(' ') && IsDelimiter(',') && !IsDelimiter('-') && !IsDelimiter('.')
  {
  }

  predicate HasTerminator(buf: seq<char>)
  {
    exists j :: 0 <= j < |buf| && IsTerminator(buf[j])
  }

  /** The first terminator at or after `i`. */
  function TerminatorFrom(buf: seq<char>, i: nat): (t: nat)
    requires i <= |buf| && exists j :: i <= j < |buf| && IsTerminator(buf[j])
    ensures i <= t < |buf| && IsTerminator(buf[t])
    ensures forall j :: i <= j < t ==> !IsTerminator(buf[j])
    decreases |buf| - i
  {
    if IsTerminator(buf[i]) then i else TerminatorFrom(buf, i + 1)
  }

  /** The index of the first NUL or line feed: where parsing ends. */
  function Terminator(buf: seq<char>): (t: nat)
    requires HasTerminator(buf)
    ensures t < |buf| && IsTerminator(buf[t])
    ensures forall j :: 0 <= j < t ==> !IsTerminator(buf[j])
  {
    TerminatorFrom(buf, 0)
  }

  /** The indices of the delimiters among buf[..n], in increasing order. */
  function Delimiters(buf: seq<char>, n: nat): seq<nat>
    requires n <= |buf|
  {
    if n == 0 then []
    else Delimiters(buf, n - 1) + (if IsDelimiter(buf[n - 1]) then [n - 1] else [])
  }

  /** Delimiters lists every delimiter index below `n` and nothing else, in increasing order. */
  lemma {:induction false} DelimitersFacts(buf: seq<char>, n: nat)
    requires n <= |buf|
    ensures var d := Delimiters(buf, n);
      |d| <= n &&
      (forall k :: 0 <= k < |d| ==> d[k] < n && IsDelimiter(buf[d[k]])) &&
      (forall k, l :: 0 <= k < l < |d| ==> d[k] < d[l]) &&
      (forall j :: 0 <= j < n && IsDelimiter(buf[j]) ==> j in d)
    decreases n
  {
    if n > 0 {
      DelimitersFacts(buf, n - 1);
    }
  }

  /** Scanning further only adds delimiters at the end. */
  lemma {:induction false} DelimitersPrefix(buf: seq<char>, m: nat, n: nat)
    requires m <= n <= |buf|
    ensures Delimiters(buf, m) <= Delimiters(buf, n)
    decreases n - m
  {
    if m < n {
      DelimitersPrefix(buf, m, n - 1);
    }
  }

  /** The field being scanned starts at or before the scan position. */
  lemma CurrentFieldStarted(buf: seq<char>, n: nat)
    requires n <= |buf|
    ensures FieldStart(Delimiters(buf, n), |Delimiters(buf, n)|) <= n
  {
    DelimitersFacts(buf, n);
  }

  /** The first index of field `k`: 0, or one past the delimiter before it. */
  function FieldStart(d: seq<nat>, k: nat): nat
    requires k <= |d|
  {
    if k == 0 then 0 else d[k - 1] + 1
  }

  /** One past the last index of field `k`: its delimiter, or the terminator for the last field. */
  function FieldEnd(d: seq<nat>, k: nat, t: nat): nat
    requires k <= |d|
  {
    if k < |d| then d[k] else t
  }

  /**
   * What parseFields can handle without writing outside USER_DATA: a
   * terminator within the buffer, at most five delimiters, and an empty
   * field after a fifth delimiter (a sixth field would be typed at
   * fieldType[5]).
   */
  predicate ParseFits(buf: seq<char>)
  {
    HasTerminator(buf) &&
    var d := Delimiters(buf, Terminator(buf));
    |d| <= MaxFields && (|d| == MaxFields ==> FieldStart(d, MaxFields) == Terminator(buf))
  }

  /** The buffer after parseFields: every delimiter before the terminator and the terminator itself become NUL. */
  function Blanked(buf: seq<char>, t: nat): (r: seq<char>)
    ensures |r| == |buf|
  {
    seq(|buf|, j requires 0 <= j < |buf| => if j == t || (j < t && IsDelimiter(buf[j])) then NUL else buf[j])
  }

  /** The buffer while parseFields scans it: the delimiters before `n` are already NUL. */
  function Marked(buf: seq<char>, n: nat): (r: seq<char>)
    ensures |r| == |buf|
  {
    seq(|buf|, j requires 0 <= j < |buf| => if j < n && IsDelimiter(buf[j]) then NUL else buf[j])
  }

  lemma MarkedStep(buf: seq<char>, i: nat)
    requires i < |buf|
    ensures Marked(buf, i + 1) == if IsDelimiter(buf[i]) then Marked(buf, i)[i := NUL] else Marked(buf, i)
  {
  }

  lemma MarkedThenTerminated(buf: seq<char>, t: nat)
    requires t < |buf|
    ensures Marked(buf, t)[t := NUL] == Blanked(buf, t)
  {
  }

  /** 'n' for a field that starts with a digit, 'a' for one that starts with a letter, '-' or '.'. */
  function TypeCode(c: char): char
  {
    if IsDigit(c) then 'n' else 'a'
  }

  /**
   * fieldType[k] once buf[..n] is scanned: set from the first character of
   * field k if that field has begun and is not empty, `previous` otherwise.
   */
  function FieldTypeAfter(buf: seq<char>, n: nat, k: nat, previous: char): char
    requires n <= |buf|
  {
    var d := Delimiters(buf, n);
    if k <= |d| && FieldStart(d, k) < n && !IsDelimiter(buf[FieldStart(d, k)]) then
      TypeCode(buf[FieldStart(d, k)])
    else
      previous
  }

  /** No delimiter index falls inside field k: the indices are increasing. */
  lemma DelimitersOutsideField(d: seq<nat>, k: nat, t: nat)
    requires k <= |d|
    requires forall k, l :: 0 <= k < l < |d| ==> d[k] < d[l]
    ensures forall m :: 0 <= m < |d| ==> d[m] < FieldStart(d, k) || FieldEnd(d, k, t) <= d[m]
  {
    forall m | 0 <= m < |d|
      ensures d[m] < FieldStart(d, k) || FieldEnd(d, k, t) <= d[m]
    {
      if m < k {
        if m < k - 1 {
          assert d[m] < d[k - 1];
        }
      } else if m > k {
        assert d[k] < d[m];
      }
    }
  }

  /** Field k lies between two delimiters (or the start and the terminator) and holds none. */
  lemma FieldHasNoDelimiter(buf: seq<char>, t: nat, k: nat)
    requires t <= |buf| && k <= |Delimiters(buf, t)|
    ensures var d := Delimiters(buf, t);
      FieldStart(d, k) <= FieldEnd(d, k, t) <= t &&
      forall j :: FieldStart(d, k) <= j < FieldEnd(d, k, t) ==> !IsDelimiter(buf[j])
  {
    var d := Delimiters(buf, t);
    DelimitersFacts(buf, t);
    DelimitersOutsideField(d, k, t);
    if 0 < k < |d| {
      assert d[k - 1] < d[k];
    }
  }

  /**
   * After parsing, each field reads back as a C string holding exactly its
   * characters: the text between its two delimiters, with no delimiter or
   * terminator inside.
   */
  lemma FieldReadsBack(buf: seq<char>, k: nat)
    requires HasTerminator(buf) && k <= |Delimiters(buf, Terminator(buf))|
    ensures var t := Terminator(buf); var d := Delimiters(buf, t);
      FieldStart(d, k) <= FieldEnd(d, k, t) <= t
    ensures var t := Terminator(buf); var d := Delimiters(buf, t);
      var s, e := FieldStart(d, k), FieldEnd(d, k, t);
      NUL in Blanked(buf, t)[s..] && CString(Blanked(buf, t)[s..]) == buf[s..e]
    ensures var t := Terminator(buf); var d := Delimiters(buf, t);
      forall j :: FieldStart(d, k) <= j < FieldEnd(d, k, t) ==> IsDigit(buf[j]) || IsAlpha(buf[j])
  {
    var t := Terminator(buf);
    var d := Delimiters(buf, t);
    var s, e := FieldStart(d, k), FieldEnd(d, k, t);
    FieldHasNoDelimiter(buf, t, k);
    var b := Blanked(buf, t);
    assert b[e] == NUL by {
      if e < t {
        DelimitersFacts(buf, t);
        assert IsDelimiter(buf[d[k]]);
      }
    }
    BlankedSliceReadsBack(buf, t, s, e);
  }

  /** A slice of the blanked buffer that stops at a NUL and holds no delimiter reads back as the original text. */
  lemma BlankedSliceReadsBack(buf: seq<char>, t: nat, s: nat, e: nat)
    requires s <= e <= t < |buf|
    requires Blanked(buf, t)[e] == NUL
    requires forall j :: s <= j < e ==> !IsDelimiter(buf[j])
    requires forall j :: 0 <= j < t ==> !IsTerminator(buf[j])
    ensures NUL in Blanked(buf, t)[s..]
    ensures CString(Blanked(buf, t)[s..]) == buf[s..e]
  {
    var b := Blanked(buf, t);
    var tail := b[s..];
    assert tail[e - s] == b[e];
    forall j | 0 <= j < e - s
      ensures tail[j] != NUL && tail[j] == buf[s + j]
    {
      assert tail[j] == b[s + j];
      assert !IsDelimiter(buf[s + j]) && !IsTerminator(buf[s + j]);
    }
    CStringEndsAtFirstNul(tail, e - s);
    assert tail[..e - s] == buf[s..e];
  }

  /** fieldType after one more character that is not a delimiter: only the field it starts is typed. */
  lemma FieldTypeAfterWordChar(buf: seq<char>, i: nat, k: nat, previous: char)
    requires i < |buf| && !IsDelimiter(buf[i])
    ensures var d := Delimiters(buf, i);
      FieldTypeAfter(buf, i + 1, k, previous) ==
        if k == |d| && FieldStart(d, k) == i then TypeCode(buf[i]) else FieldTypeAfter(buf, i, k, previous)
  {
    var d := Delimiters(buf, i);
    DelimitersFacts(buf, i);
    assert Delimiters(buf, i + 1) == d;
    if 0 < k <= |d| {
      assert FieldStart(d, k) <= d[|d| - 1] + 1;
    }
  }

  /** fieldType after a delimiter: unchanged, since the field it opens has no character yet. */
  lemma FieldTypeAfterDelimiter(buf: seq<char>, i: nat, k: nat, previous: char)
    requires i < |buf| && IsDelimiter(buf[i])
    ensures FieldTypeAfter(buf, i + 1, k, previous) == FieldTypeAfter(buf, i, k, previous)
  {
    var d := Delimiters(buf, i);
    assert Delimiters(buf, i + 1) == d + [i];
    if k <= |d| {
      assert FieldStart(d + [i], k) == FieldStart(d, k);
    }
  }

  /** The fieldPosition array once the delimiters `d` are recorded over its contents `previous`. */
  function PositionsAfter(d: seq<nat>, previous: seq<uint8>): (r: seq<int>)
    requires |d| <= |previous|
    ensures |r| == |previous|
  {
    d + previous[|d|..]
  }

  /** The whole fieldType array once buf[..n] is scanned, from its contents `previous` before parsing. */
  function TypesAfter(buf: seq<char>, n: nat, previous: seq<char>): (r: seq<char>)
    requires n <= |buf| && |previous| == MaxFields
    ensures |r| == MaxFields
  {
    seq(MaxFields, k requires 0 <= k < MaxFields => FieldTypeAfter(buf, n, k, previous[k]))
  }

  /** One parseFields step on the field types, for any character but the terminator. */
  lemma TypesStep(buf: seq<char>, i: nat, previous: seq<char>)
    requires i < |buf| && |previous| == MaxFields
    requires var d := Delimiters(buf, i); !IsDelimiter(buf[i]) && FieldStart(d, |d|) == i ==> |d| < MaxFields
    ensures var d := Delimiters(buf, i);
      TypesAfter(buf, i + 1, previous) ==
        if !IsDelimiter(buf[i]) && FieldStart(d, |d|) == i then TypesAfter(buf, i, previous)[|d| := TypeCode(buf[i])]
        else TypesAfter(buf, i, previous)
  {
    var d := Delimiters(buf, i);
    forall k | 0 <= k < MaxFields
      ensures TypesAfter(buf, i + 1, previous)[k] ==
        if !IsDelimiter(buf[i]) && k == |d| && FieldStart(d, k) == i then TypeCode(buf[i])
        else TypesAfter(buf, i, previous)[k]
    {
      if IsDelimiter(buf[i]) {
        FieldTypeAfterDelimiter(buf, i, k, previous[k]);
      } else {
        FieldTypeAfterWordChar(buf, i, k, previous[k]);
      }
    }
  }

  /**
   * The state of parseFields after scanning buf[..i] of the line `b`: `d`
   * are the delimiters met so far, `first` says whether the current field
   * has no character yet, and the buffer, the count and the two tables are
   * what the scan has made of their contents `pos0` and `types0` before it.
   */
  ghost predicate Scanned(b: seq<char>, i: nat, d: seq<nat>, first: bool, buf: seq<char>, count: int,
                          pos: seq<uint8>, types: seq<char>, pos0: seq<uint8>, types0: seq<char>)
  {
    i <= |b| && |pos0| == MaxFields && |types0| == MaxFields &&
    d == Delimiters(b, i) && count == |d| && |d| <= MaxFields && buf == Marked(b, i) &&
    pos == PositionsAfter(d, pos0) && types == TypesAfter(b, i, types0) &&
    (first <==> i == FieldStart(d, |d|))
  }

  lemma ScanStarts(b: seq<char>, pos0: seq<uint8>, types0: seq<char>)
    requires |pos0| == MaxFields && |types0| == MaxFields
    ensures Scanned(b, 0, [], true, b, 0, pos0, types0, pos0, types0)
  {
    assert Marked(b, 0) == b;
    assert TypesAfter(b, 0, types0) == types0;
  }

  /** The character at the scan position is still the line's own. */
  lemma ScanPeek(b: seq<char>, i: nat, d: seq<nat>, first: bool, buf: seq<char>, count: int,
                 pos: seq<uint8>, types: seq<char>, pos0: seq<uint8>, types0: seq<char>)
    requires ParseFits(b) && i <= Terminator(b)
    requires Scanned(b, i, d, first, buf, count, pos, types, pos0, types0)
    ensures i < |b| && i < |buf| && buf[i] == b[i]
  {
  }

  /** A digit or letter: the field it starts is typed; nothing else changes. */
  lemma ScanWordChar(b: seq<char>, i: nat, d: seq<nat>, first: bool, buf: seq<char>, count: int,
                     pos: seq<uint8>, types: seq<char>, pos0: seq<uint8>, types0: seq<char>)
    requires ParseFits(b) && i < Terminator(b) && !IsDelimiter(b[i])
    requires Scanned(b, i, d, first, buf, count, pos, types, pos0, types0)
    ensures first ==> 0 <= count < MaxFields
    ensures Scanned(b, i + 1, d, false, buf, count, pos,
                    if first then types[count := TypeCode(b[i])] else types, pos0, types0)
  {
    var t := Terminator(b);
    DelimitersPrefix(b, i, t);
    CurrentFieldStarted(b, i);
    TypesStep(b, i, types0);
    MarkedStep(b, i);
    assert Delimiters(b, i + 1) == d;
  }

  /** A delimiter: it becomes NUL, its index is recorded and a new field begins. */
  lemma ScanDelimiter(b: seq<char>, i: nat, d: seq<nat>, first: bool, buf: seq<char>, count: int,
                      pos: seq<uint8>, types: seq<char>, pos0: seq<uint8>, types0: seq<char>)
    requires |b| == BufferSize && ParseFits(b) && i < Terminator(b) && IsDelimiter(b[i])
    requires Scanned(b, i, d, first, buf, count, pos, types, pos0, types0)
    ensures 0 <= count < MaxFields && i < 0x100
    ensures Scanned(b, i + 1, d + [i], true, buf[i := NUL], count + 1, pos[count := i as uint8], types, pos0, types0)
  {
    var t := Terminator(b);
    DelimitersPrefix(b, i + 1, t);
    assert Delimiters(b, i + 1) == d + [i];
    TypesStep(b, i, types0);
    MarkedStep(b, i);
    assert PositionsAfter(d + [i], pos0) == PositionsAfter(d, pos0)[count := i];
  }

  /** The terminator: it becomes NUL and the scan is complete. */
  lemma ScanTerminator(b: seq<char>, i: nat, d: seq<nat>, first: bool, buf: seq<char>, count: int,
                       pos: seq<uint8>, types: seq<char>, pos0: seq<uint8>, types0: seq<char>)
    requires ParseFits(b) && i <= Terminator(b) && IsTerminator(b[i])
    requires Scanned(b, i, d, first, buf, count, pos, types, pos0, types0)
    ensures i == Terminator(b) && d == Delimiters(b, i) && count == |d|
    ensures buf[i := NUL] == Blanked(b, i) && pos == PositionsAfter(d, pos0) && types == TypesAfter(b, i, types0)
  {
    MarkedThenTerminated(b, i);
  }

  /* --------------------------------------------------------------- numbers */

  /** `str[i] - 48`. */
  function DigitValue(c: char): int
  {
    c as int - 48
  }

  /**
   * The int32_t that str_to_int accumulates over `digits`: times ten, then
   * plus the digit, each step wrapping as the ARM compiler does.
   */
  function Accumulate(digits: seq<char>): (v: int)
    ensures -TwoTo31 <= v < TwoTo31
  {
    if digits == [] then 0
    else WrapInt32(WrapInt32(Accumulate(digits[..|digits| - 1]) * 10) + DigitValue(digits[|digits| - 1]))
  }

  function Pow10(n: nat): (p: nat)
    ensures p >= 1
  {
    if n == 0 then 1 else 10 * Pow10(n - 1)
  }

  /** Reference definition: the sum of digit i times 10^(|digits| - 1 - i). */
  function Decimal(digits: seq<char>): int
  {
    if digits == [] then 0 else DigitValue(digits[0]) * Pow10(|digits| - 1) + Decimal(digits[1..])
  }

  lemma {:induction false} DecimalAppend(digits: seq<char>, c: char)
    ensures Decimal(digits + [c]) == 10 * Decimal(digits) + DigitValue(c)
    decreases |digits|
  {
    if digits == [] {
      assert [] + [c] == [c];
    } else {
      assert (digits + [c])[1..] == digits[1..] + [c];
      DecimalAppend(digits[1..], c);
      assert Pow10(|digits|) == 10 * Pow10(|digits| - 1);
    }
  }

  lemma {:induction false} DecimalBounds(digits: seq<char>)
    requires forall k :: 0 <= k < |digits| ==> IsDigit(digits[k])
    ensures 0 <= Decimal(digits) < Pow10(|digits|)
    decreases |digits|
  {
    if digits != [] {
      var init, last := digits[..|digits| - 1], digits[|digits| - 1];
      DecimalBounds(init);
      DecimalAppend(init, last);
      assert init + [last] == digits;
    }
  }

  /**
   * str_to_int of a string of at most nine decimal digits is its decimal
   * value: nothing overflows int32_t. The empty string gives 0.
   */
  lemma {:induction false} StrToIntIsDecimal(digits: seq<char>)
    requires |digits| <= 9 && forall k :: 0 <= k < |digits| ==> IsDigit(digits[k])
    ensures Accumulate(digits) == Decimal(digits)
    decreases |digits|
  {
    if digits != [] {
      var init, last := digits[..|digits| - 1], digits[|digits| - 1];
      StrToIntIsDecimal(init);
      DecimalBounds(init);
      Pow10Monotonic(|init|, 8);
      assert Pow10(8) == 100_000_000;
      DecimalAppend(init, last);
      assert init + [last] == digits;
    }
  }

  lemma {:induction false} Pow10Monotonic(m: nat, n: nat)
    requires m <= n
    ensures Pow10(m) <= Pow10(n)
    decreases n
  {
    if m < n {
      Pow10Monotonic(m, n - 1);
    }
  }

  /** The buffer lab5's main fills before parsing: "add 12,2" and its NUL, then anything. */
  predicate IsMainLine(buf: seq<char>)
  {
    |buf| == BufferSize && buf[..9] == "add 12,2" + [NUL]
  }

  lemma MainLineCharacters(buf: seq<char>)
    requires IsMainLine(buf)
    ensures buf[0] == 'a' && buf[1] == 'd' && buf[2] == 'd' && buf[3] == ' ' && buf[4] == '1'
    ensures buf[5] == '2' && buf[6] == ',' && buf[7] == '2' && buf[8] == NUL
  {
    var line := "add 12,2" + [NUL];
    assert buf[..9] == line;
    assert buf[0] == line[0] && buf[1] == line[1] && buf[2] == line[2] && buf[3] == line[3] && buf[4] == line[4];
    assert buf[5] == line[5] && buf[6] == line[6] && buf[7] == line[7] && buf[8] == line[8];
  }

  lemma MainLineStructure(buf: seq<char>)
    requires IsMainLine(buf)
    ensures ParseFits(buf) && Terminator(buf) == 8 && Delimiters(buf, 8) == [3, 6]
  {
    MainLineCharacters(buf);
    assert TerminatorFrom(buf, 8) == 8;
    assert TerminatorFrom(buf, 7) == 8;
    assert TerminatorFrom(buf, 6) == 8;
    assert TerminatorFrom(buf, 5) == 8;
    assert TerminatorFrom(buf, 4) == 8;
    assert TerminatorFrom(buf, 3) == 8;
    assert TerminatorFrom(buf, 2) == 8;
    assert TerminatorFrom(buf, 1) == 8;
    assert TerminatorFrom(buf, 0) == 8;
    assert Delimiters(buf, 1) == [];
    assert Delimiters(buf, 2) == [];
    assert Delimiters(buf, 3) == [];
    assert Delimiters(buf, 4) == [3];
    assert Delimiters(buf, 5) == [3];
    assert Delimiters(buf, 6) == [3];
    assert Delimiters(buf, 7) == [3, 6];
    assert Delimiters(buf, 8) == [3, 6];
  }

  /**
   * parseFields on the line of lab5's main, "add 12,2": the terminator is
   * at 8, the delimiters are the space and the comma, and the fields are
   * typed 'a', 'n', 'n' (the other two entries keep what they held).
   */
  lemma MainLineParse(buf: seq<char>, previous: seq<char>)
    requires IsMainLine(buf) && |previous| == MaxFields
    ensures ParseFits(buf) && Terminator(buf) == 8 && Delimiters(buf, 8) == [3, 6]
    ensures TypesAfter(buf, 8, previous) == ['a', 'n', 'n', previous[3], previous[4]]
  {
    MainLineCharacters(buf);
    MainLineStructure(buf);
    assert FieldTypeAfter(buf, 8, 0, previous[0]) == 'a';
    assert FieldTypeAfter(buf, 8, 1, previous[1]) == 'n';
    assert FieldTypeAfter(buf, 8, 2, previous[2]) == 'n';
    assert FieldTypeAfter(buf, 8, 3, previous[3]) == previous[3];
    assert FieldTypeAfter(buf, 8, 4, previous[4]) == previous[4];
  }

  /** The fields of "add 12,2" read back as "add", "12" and "2" once parsed. */
  lemma MainLineFields(buf: seq<char>)
    requires IsMainLine(buf)
    ensures NUL in Blanked(buf, 8)[0..] && CString(Blanked(buf, 8)[0..]) == "add"
    ensures NUL in Blanked(buf, 8)[4..] && CString(Blanked(buf, 8)[4..]) == "12"
    ensures NUL in Blanked(buf, 8)[7..] && CString(Blanked(buf, 8)[7..]) == "2"
  {
    MainLineCharacters(buf);
    MainLineStructure(buf);
    FieldReadsBack(buf, 0);
    FieldReadsBack(buf, 1);
    FieldReadsBack(buf, 2);
    assert buf[0..3] == "add" && buf[4..6] == "12" && buf[7..8] == "2";
  }

  /* ------------------------------------------------------- string routines */

  /** str_to_int: Horner's rule over the characters before the NUL, with a uint8_t index. */
  method StrToInt(s: array<char>) returns (value: int)
    requires NUL in s[..] && CLength(s[..]) < 0x100
    ensures value == Accumulate(CString(s[..]))
  {
    value := 0;
    var i: nat := 0;
    while s[i] != NUL
      invariant i <= CLength(s[..])
      invariant value == Accumulate(s[..i])
      decreases CLength(s[..]) - i
    {
      value := WrapInt32(value * 10);
      value := WrapInt32(value + DigitValue(s[i]));
      assert s[..i + 1][..i] == s[..i];
      i := i + 1;
    }
  }

  /**
   * str_comp: compares until the NUL of `x` only, so it holds exactly when
   * the C string in `x` is a prefix of the one in `s`.
   */
  method StrComp(x: array<char>, s: seq<char>) returns (same: bool)
    requires NUL in x[..] && NUL in s && CLength(x[..]) < 0x100
    ensures same <==> CString(x[..]) <= CString(s)
  {
    var i: nat := 0;
    while x[i] != NUL
      invariant i <= CLength(x[..]) && i <= CLength(s)
      invariant x[..i] == s[..i]
      decreases CLength(x[..]) - i
    {
      if x[i] != s[i] {
        assert CString(x[..])[i] == x[i];
        return false;
      }
      assert x[..i + 1] == s[..i + 1];
      i := i + 1;
    }
    assert CString(x[..]) == x[..i];
    return true;
  }

  /** The clearing loop of getFieldString: `str` becomes 81 NULs. */
  method ClearString(str: array<char>)
    requires str.Length == BufferSize
    modifies str
    ensures str[..] == Zeroes()
  {
    for i := 0 to BufferSize
      invariant forall j :: 0 <= j < i ==> str[j] == NUL
    {
      str[i] := NUL;
    }
    assert str[..] == Zeroes();
  }

  /** The copy loop of getFieldString: the C string at `start` of `src` into the cleared `str`. */
  method CopyCString(src: array<char>, start: nat, str: array<char>)
    requires src.Length == BufferSize && str.Length == BufferSize && str != src
    requires start < BufferSize && NUL in src[start..] && str[..] == Zeroes()
    modifies str
    ensures str[..] == Padded(CString(src[start..]))
  {
    ghost var tail := src[start..];
    ghost var text := CString(tail);
    assert str[..] == Padded([]);
    var index := start;
    var i: nat := 0;
    while src[index] != NUL
      invariant index == start + i && i <= |text|
      invariant str[..] == Padded(text[..i])
      decreases |text| - i
    {
      assert src[index] == tail[i];
      PaddedExtend(text, i);
      str[i] := src[index];
      index := index + 1;
      i := i + 1;
    }
    assert tail[i] == NUL;
    assert text[..i] == text;
  }

  /* --------------------------------------------------------------- USER_DATA */

  /** USER_DATA: the line buffer and the field table parseFields fills. */
  class UserData {
    const buffer: array<char>
    var fieldCount: uint8
    const fieldPosition: array<uint8>
    const fieldType: array<char>

    predicate Valid()
    {
      buffer.Length == BufferSize && fieldPosition.Length == MaxFields && fieldType.Length == MaxFields &&
      buffer != fieldType
    }

    /** A USER_DATA holding whatever `line`, `positions` and `types` say (an uninitialised local holds anything). */
    constructor (line: seq<char>, count: uint8, positions: seq<uint8>, types: seq<char>)
      requires |line| == BufferSize && |positions| == MaxFields && |types| == MaxFields
      ensures Valid() && fresh(buffer) && fresh(fieldPosition) && fresh(fieldType)
      ensures buffer[..] == line && fieldCount == count && fieldPosition[..] == positions && fieldType[..] == types
    {
      buffer := new char[BufferSize](j requires 0 <= j < BufferSize => line[j]);
      fieldCount := count;
      fieldPosition := new uint8[MaxFields](k requires 0 <= k < MaxFields => positions[k]);
      fieldType := new char[MaxFields](k requires 0 <= k < MaxFields => types[k]);
      new;
      assert buffer[..] == line && fieldPosition[..] == positions && fieldType[..] == types;
    }

    /** getsUart0, reading the characters `input` from getcUart0; returns how many it took. */
    method GetsUart0(input: seq<char>) returns (used: nat)
      requires Valid() && ReadLine(buffer[..], input).Some?
      modifies buffer
      ensures buffer[..] == ReadLine(old(buffer[..]), input).value.buf
      ensures used == ReadLine(old(buffer[..]), input).value.used
    {
      var count: nat := 0;
      used := 0;
      while count != MaxChars
        invariant count <= MaxChars && used <= |input|
        invariant Read(Editor(buffer[..], count), input, used) == ReadLine(old(buffer[..]), input)
        decreases |input| - used
      {
        var c := input[used];
        used := used + 1;
        if count > 0 && (c == Backspace || c == Delete) {
          count := count - 1;
        } else if c == CarriageReturn {
          buffer[count] := NUL;
          return;
        } else if c >= ' ' {
          buffer[count] := c;
          count := count + 1;
        }
      }
      buffer[count] := NUL;
    }

    /** The scan state of parseFields over the line `b`, in terms of this USER_DATA. */
    ghost predicate ScannedHere(b: seq<char>, i: nat, d: seq<nat>, first: bool, pos0: seq<uint8>, types0: seq<char>)
      reads this, buffer, fieldPosition, fieldType
    {
      Scanned(b, i, d, first, buffer[..], fieldCount as int, fieldPosition[..], fieldType[..], pos0, types0)
    }

    /** A digit or letter at `i`: types the field it starts, if it starts one. */
    method ScanWordStep(ghost b: seq<char>, i: nat, ghost d: seq<nat>, first: bool, code: char,
                        ghost pos0: seq<uint8>, ghost types0: seq<char>)
      requires Valid() && ParseFits(b) && i < Terminator(b) && !IsDelimiter(b[i]) && code == TypeCode(b[i])
      requires ScannedHere(b, i, d, first, pos0, types0)
      modifies fieldType
      ensures ScannedHere(b, i + 1, d, false, pos0, types0)
    {
      ghost var buffer0, positions0, types1 := buffer[..], fieldPosition[..], fieldType[..];
      ScanWordChar(b, i, d, first, buffer0, fieldCount as int, positions0, types1, pos0, types0);
      if first {
        fieldType[fieldCount] := code;
        assert fieldType[..] == types1[fieldCount := code];
      }
    }

    /** A delimiter at `i`: it becomes NUL, its index is recorded and the count grows. */
    method ScanDelimiterStep(ghost b: seq<char>, i: nat, ghost d: seq<nat>, first: bool,
                             ghost pos0: seq<uint8>, ghost types0: seq<char>)
      requires Valid() && ParseFits(b) && i < Terminator(b) && IsDelimiter(b[i])
      requires ScannedHere(b, i, d, first, pos0, types0)
      modifies this, buffer, fieldPosition
      ensures ScannedHere(b, i + 1, d + [i], true, pos0, types0)
    {
      ghost var buffer0, positions0, types1 := buffer[..], fieldPosition[..], fieldType[..];
      ScanDelimiter(b, i, d, first, buffer0, fieldCount as int, positions0, types1, pos0, types0);
      buffer[i] := NUL;
      assert buffer[..] == buffer0[i := NUL];
      fieldPosition[fieldCount] := i as uint8;
      assert fieldPosition[..] == positions0[fieldCount := i as uint8];
      fieldCount := fieldCount + 1;
    }

    /** The terminator at `i`: it becomes NUL and the tables are complete. */
    method ScanTerminatorStep(ghost b: seq<char>, i: nat, ghost d: seq<nat>, first: bool,
                              ghost pos0: seq<uint8>, ghost types0: seq<char>)
      requires Valid() && ParseFits(b) && i <= Terminator(b) && IsTerminator(b[i])
      requires ScannedHere(b, i, d, first, pos0, types0)
      modifies buffer
      ensures var t := Terminator(b); var e := Delimiters(b, t);
        fieldCount as int == |e| && buffer[..] == Blanked(b, t) &&
        fieldPosition[..] == PositionsAfter(e, pos0) && fieldType[..] == TypesAfter(b, t, types0)
    {
      ghost var buffer0, positions0, types1 := buffer[..], fieldPosition[..], fieldType[..];
      ScanTerminator(b, i, d, first, buffer0, fieldCount as int, positions0, types1, pos0, types0);
      buffer[i] := NUL;
      assert buffer[..] == buffer0[i := NUL];
    }

    /**
     * parseFields: cuts the line at its delimiters in place, recording where
     * each delimiter was and the type of each field that has a first character.
     */
    method ParseFields()
      requires Valid() && ParseFits(buffer[..])
      modifies this, buffer, fieldPosition, fieldType
      ensures var b := old(buffer[..]); var t := Terminator(b); var d := Delimiters(b, t);
        fieldCount as int == |d| && buffer[..] == Blanked(b, t) &&
        fieldPosition[..] == PositionsAfter(d, old(fieldPosition[..])) &&
        fieldType[..] == TypesAfter(b, t, old(fieldType[..]))
    {
      ghost var b, positions, types := buffer[..], fieldPosition[..], fieldType[..];
      ghost var t := Terminator(b);
      ghost var d: seq<nat> := [];
      fieldCount := 0;
      var i: nat := 0;
      var first := true;
      ScanStarts(b, positions, types);
      while i <= MaxChars + 1
        invariant i <= t
        invariant ScannedHere(b, i, d, first, positions, types)
        decreases t - i
      {
        ScanPeek(b, i, d, first, buffer[..], fieldCount as int, fieldPosition[..], fieldType[..], positions, types);
        var c := buffer[i];
        if IsDigit(c) {
          ScanWordStep(b, i, d, first, 'n', positions, types);
          first := false;
        } else if IsAlpha(c) {
          ScanWordStep(b, i, d, first, 'a', positions, types);
          first := false;
        } else if IsTerminator(c) {
          ScanTerminatorStep(b, i, d, first, positions, types);
          break;
        } else {
          ScanDelimiterStep(b, i, d, first, positions, types);
          first := true;
          d := d + [i];
        }
        i := i + 1;
      }
    }

    /** Where getFieldString starts copying field `fieldNumber`: 0, or one past the recorded delimiter, in uint8_t. */
    function FieldIndex(fieldNumber: nat): nat
      requires Valid() && fieldNumber < MaxFields
      reads fieldPosition
    {
      if fieldNumber == 0 then 0 else (fieldPosition[fieldNumber - 1] as int + 1) % 0x100
    }

    /** getFieldString reads inside the buffer: a typed field starts in it and a NUL follows. */
    predicate FieldReadable(fieldNumber: nat)
      requires Valid() && fieldNumber < MaxFields
      reads buffer, fieldPosition, fieldType
    {
      fieldType[fieldNumber] != NUL ==>
        FieldIndex(fieldNumber) < BufferSize && NUL in buffer[FieldIndex(fieldNumber)..]
    }

    /** The text getFieldString copies: the C string from the field's first index. */
    function FieldText(fieldNumber: nat): (text: seq<char>)
      requires Valid() && fieldNumber < MaxFields && FieldReadable(fieldNumber) && fieldType[fieldNumber] != NUL
      reads buffer, fieldPosition, fieldType
      ensures |text| < BufferSize - FieldIndex(fieldNumber) && NUL !in text
    {
      CString(buffer[FieldIndex(fieldNumber)..])
    }

    /**
     * Once parseFields has cut `line`, getFieldString(k) of any field up to
     * the delimiter count reads inside the buffer and copies exactly the
     * k-th token of the line.
     */
    lemma ParsedFieldIsToken(line: seq<char>, k: nat)
      requires Valid() && ParseFits(line) && k < MaxFields
      requires var d := Delimiters(line, Terminator(line));
        k <= |d| && buffer[..] == Blanked(line, Terminator(line)) &&
        forall j :: 0 <= j < |d| ==> fieldPosition[j] as int == d[j]
      ensures var t := Terminator(line); var d := Delimiters(line, t);
        FieldStart(d, k) <= FieldEnd(d, k, t) <= t < |line|
      ensures FieldIndex(k) == FieldStart(Delimiters(line, Terminator(line)), k)
      ensures FieldReadable(k)
      ensures var t := Terminator(line); var d := Delimiters(line, t);
        fieldType[k] != NUL ==> FieldText(k) == line[FieldStart(d, k)..FieldEnd(d, k, t)]
    {
      var t := Terminator(line);
      var d := Delimiters(line, t);
      var s := FieldStart(d, k);
      FieldReadsBack(line, k);
      assert s <= t < |line| == BufferSize;
      if k > 0 {
        assert fieldPosition[k - 1] as int == d[k - 1] == s - 1;
      }
      assert FieldIndex(k) == s;
      assert buffer[s..] == Blanked(line, t)[s..];
    }

    /**
     * getFieldString: clears the global `str`, then copies field
     * `fieldNumber` into it. Returns false where the C code returns NULL,
     * true where it returns `str`.
     */
    method GetFieldString(fieldNumber: nat, str: array<char>) returns (found: bool)
      requires Valid() && fieldNumber < MaxFields && FieldReadable(fieldNumber)
      requires str.Length == BufferSize && str != buffer && str != fieldType
      modifies str
      ensures found <==> fieldType[fieldNumber] != NUL
      ensures !found ==> str[..] == Zeroes()
      ensures found ==> str[..] == Padded(FieldText(fieldNumber))
    {
      ClearString(str);
      if fieldType[fieldNumber] == NUL {
        return false;
      }
      var fieldIndex: nat := 0;
      if fieldNumber != 0 {
        fieldIndex := fieldPosition[fieldNumber - 1];
        fieldIndex := (fieldIndex + 1) % 0x100;
      }
      assert fieldIndex == FieldIndex(fieldNumber);
      CopyCString(buffer, fieldIndex, str);
      assert str[..] == Padded(FieldText(fieldNumber));
      return true;
    }

    /** getFieldInteger: str_to_int of the field, or 0 where getFieldString gives NULL. */
    method GetFieldInteger(fieldNumber: nat, str: array<char>) returns (value: int)
      requires Valid() && fieldNumber < MaxFields && FieldReadable(fieldNumber)
      requires str.Length == BufferSize && str != buffer && str != fieldType
      modifies str
      ensures fieldType[fieldNumber] == NUL ==> value == 0 && str[..] == Zeroes()
      ensures fieldType[fieldNumber] != NUL ==>
        value == Accumulate(FieldText(fieldNumber)) && str[..] == Padded(FieldText(fieldNumber))
    {
      var found := GetFieldString(fieldNumber, str);
      if !found {
        value := 0;
      } else {
        PaddedReadsBack(FieldText(fieldNumber));
        value := StrToInt(str);
      }
    }

    /**
     * isCommand: field 0 matches `strCommand` (a C string with its NUL) in
     * the prefix sense of str_comp, and there are at least `minArguments`
     * delimiters. Field 0 must be typed: getFieldString's NULL would be
     * dereferenced.
     */
    method IsCommand(strCommand: seq<char>, minArguments: uint8, str: array<char>) returns (matches: bool)
      requires Valid() && FieldReadable(0) && fieldType[0] != NUL && NUL in strCommand
      requires str.Length == BufferSize && str != buffer && str != fieldType
      modifies str
      ensures matches <==> FieldText(0) <= CString(strCommand) && fieldCount >= minArguments
      ensures str[..] == Padded(FieldText(0))
    {
      var found := GetFieldString(0, str);
      PaddedReadsBack(FieldText(0));
      var same := StrComp(str, strCommand);
      if same {
        if fieldCount >= minArguments {
          return true;
        } else {
          return false;
        }
      }
      return false;
    }

    /** The fields of "add 12,2", once parsed, read back through the recorded table as "add", "12" and "2". */
    lemma MainLineFieldTexts(line: seq<char>)
      requires Valid() && IsMainLine(line) && buffer[..] == Blanked(line, 8)
      requires fieldPosition[0] == 3 && fieldPosition[1] == 6
      requires fieldType[0] != NUL && fieldType[1] != NUL && fieldType[2] != NUL
      ensures FieldReadable(0) && FieldReadable(1) && FieldReadable(2)
      ensures FieldText(0) == "add" && FieldText(1) == "12" && FieldText(2) == "2"
    {
      MainLineFields(line);
      assert FieldIndex(1) == 4 && FieldIndex(2) == 7;
      assert buffer[0..] == Blanked(line, 8)[0..];
      assert buffer[4..] == Blanked(line, 8)[4..];
      assert buffer[7..] == Blanked(line, 8)[7..];
    }
  }

  /** The literal values lab5's main works with. */
  lemma MainLineLiterals()
    ensures Accumulate("12") == 12 && Accumulate("2") == 2
    ensures NUL in "add" + [NUL] && CString("add" + [NUL]) == "add"
  {
    assert "12"[..1] == "1";
    CStringEndsAtFirstNul("add" + [NUL], 3);
  }

  /**
   * lab5's main: the buffer holds "add 12,2" and its NUL (the rest of
   * USER_DATA holds whatever the uninitialised local held), then
   * parseFields, getFieldString of field 0, getFieldInteger of fields 1
   * and 2, and isCommand("add", 4). Returns what `str` holds after the first
   * call, the two integers and the command test.
   */
  method LabFiveMain(line: seq<char>, count: uint8, positions: seq<uint8>, types: seq<char>)
    returns (field0: seq<char>, field1: int, field2: int, cmd: bool)
    requires IsMainLine(line) && |positions| == MaxFields && |types| == MaxFields
    ensures field0 == Padded("add") && field1 == 12 && field2 == 2 && !cmd
  {
    var data := new UserData(line, count, positions, types);
    var str := new char[BufferSize];
    MainLineParse(line, types);
    data.ParseFields();
    assert data.fieldPosition[..] == [3, 6] + positions[2..];
    assert data.fieldPosition[0] == 3 && data.fieldPosition[1] == 6;
    assert data.fieldType[..] == ['a', 'n', 'n', types[3], types[4]];
    assert data.fieldType[0] == 'a' && data.fieldType[1] == 'n' && data.fieldType[2] == 'n';
    assert data.fieldCount == 2;
    data.MainLineFieldTexts(line);
    MainLineLiterals();
    var found := data.GetFieldString(0, str);
    field0 := str[..];
    field1 := data.GetFieldInteger(1, str);
    field2 := data.GetFieldInteger(2, str);
    cmd := data.IsCommand("add" + [NUL], 4, str);
  }
}
