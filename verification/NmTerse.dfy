// One line of nmcli's terse table output: fields separated by ':', with ':' and '\'
// inside a field escaped by '\'.
module NmTerse {
  // ---- the parser ---------------------------------------------------------------------

  // The fields of the rest of a line, when the text b of the first one is known.
  function SplitFrom(b: string, line: string): (fields: seq<string>)
    ensures fields != []
    decreases |line|
  {
    if line == "" then [b]
    else if line[0] == '\\' && |line| > 1 then SplitFrom(b + [line[1]], line[2..])
    else if line[0] == ':' then [b] + SplitFrom("", line[1..])
    else SplitFrom(b + [line[0]], line[1..])
  }

  method SplitTerse(line: string) returns (fields: seq<string>)
    ensures fields == SplitFrom("", line)
  {
    fields := [];
    var b := "";
    var i := 0;
    while i < |line|
      invariant 0 <= i <= |line|
      invariant SplitFrom("", line) == fields + SplitFrom(b, line[i..])
    {
      var c := line[i];
      assert line[i..][1..] == line[i + 1..];
      if c == '\\' && i + 1 < |line| {
        assert line[i..][2..] == line[i + 2..];
        b := b + [line[i + 1]];
        i := i + 1;
      } else if c == ':' {
        fields := fields + [b];
        b := "";
      } else {
        b := b + [c];
      }
      i := i + 1;
    }
    fields := fields + [b];
  }

  // ---- the printer ----------------------------------------------------------------------

  function Escape(field: string): string {
    if field == "" then ""
    else (if field[0] == ':' || field[0] == '\\' then ['\\', field[0]] else [field[0]]) + Escape(field[1..])
  }

  function TerseLine(fields: seq<string>): string
    requires fields != []
  {
    if |fields| == 1 then Escape(fields[0]) else Escape(fields[0]) + [':'] + TerseLine(fields[1..])
  }

  lemma SplitEscapedChar(b: string, c: char, line: string)
    ensures SplitFrom(b, Escape([c]) + line) == SplitFrom(b + [c], line)
  {
    assert [c][1..] == "";
    if c == ':' || c == '\\' {
      assert Escape([c]) + line == ['\\', c] + line;
      assert (['\\', c] + line)[2..] == line;
    } else {
      assert Escape([c]) + line == [c] + line;
      assert ([c] + line)[1..] == line;
    }
  }

  lemma EscapeCons(field: string, rest: string)
    requires field != ""
    ensures Escape(field) + rest == Escape([field[0]]) + (Escape(field[1..]) + rest)
  {
    assert [field[0]][1..] == "";
  }

  lemma {:induction false} SplitEscaped(b: string, field: string, rest: string)
    ensures SplitFrom(b, Escape(field) + rest) == SplitFrom(b + field, rest)
    decreases |field|
  {
    if field == "" {
      assert Escape(field) + rest == rest && b + field == b;
    } else {
      var c, tail := field[0], field[1..];
      EscapeCons(field, rest);
      SplitEscapedChar(b, c, Escape(tail) + rest);
      SplitEscaped(b + [c], tail, rest);
      assert b + [c] + tail == b + field;
    }
  }

  // Splitting undoes escaping and joining, for every non-empty list of fields:
  // separators inside a field never shift the columns after it.
  lemma {:induction false} TerseRoundTrip(fields: seq<string>)
    requires fields != []
    ensures SplitFrom("", TerseLine(fields)) == fields
  {
    var field := fields[0];
    assert "" + field == field;
    if |fields| == 1 {
      SplitEscaped("", field, "");
      assert Escape(field) + "" == Escape(field);
    } else {
      var rest := [':'] + TerseLine(fields[1..]);
      assert TerseLine(fields) == Escape(field) + rest;
      SplitEscaped("", field, rest);
      assert rest[1..] == TerseLine(fields[1..]);
      TerseRoundTrip(fields[1..]);
    }
  }

  // A backslash stands for the character behind it, whatever that is; one at the end of
  // the line stands for itself; and a bare separator ends the field.
  lemma AfterField(field: string, c: char, rest: string)
    ensures SplitFrom("", Escape(field) + ['\\', c] + rest) == SplitFrom(field + [c], rest)
    ensures SplitFrom("", Escape(field) + ['\\']) == [field + ['\\']]
    ensures SplitFrom("", Escape(field) + [':'] + rest) == [field] + SplitFrom("", rest)
  {
    assert "" + field == field;
    SplitEscaped("", field, ['\\', c] + rest);
    assert Escape(field) + ['\\', c] + rest == Escape(field) + (['\\', c] + rest);
    assert (['\\', c] + rest)[2..] == rest;
    SplitEscaped("", field, ['\\']);
    assert ['\\'][1..] == "";
    SplitEscaped("", field, [':'] + rest);
    assert Escape(field) + [':'] + rest == Escape(field) + ([':'] + rest);
    assert ([':'] + rest)[1..] == rest;
  }

  // ---- which lines the printer makes ------------------------------------------------------

  // A backslash only ever stands before a separator or another backslash.
  predicate IsWellEscaped(line: string) {
    if line == "" then true
    else if line[0] == '\\' then |line| > 1 && (line[1] == ':' || line[1] == '\\') && IsWellEscaped(line[2..])
    else IsWellEscaped(line[1..])
  }

  lemma {:induction false} EscapeAppend(a: string, c: char)
    ensures Escape(a + [c]) == Escape(a) + if c == ':' || c == '\\' then ['\\', c] else [c]
  {
    if a == "" {
      assert a + [c] == [c] && [c][1..] == "";
    } else {
      assert (a + [c])[1..] == a[1..] + [c];
      EscapeAppend(a[1..], c);
    }
  }

  lemma {:induction false} Reprint(b: string, line: string)
    requires IsWellEscaped(line)
    ensures TerseLine(SplitFrom(b, line)) == Escape(b) + line
    decreases |line|
  {
    if line == "" {
    } else if line[0] == '\\' {
      Reprint(b + [line[1]], line[2..]);
      EscapeAppend(b, line[1]);
      assert line == [line[0], line[1]] + line[2..];
    } else if line[0] == ':' {
      Reprint("", line[1..]);
      assert ([b] + SplitFrom("", line[1..]))[1..] == SplitFrom("", line[1..]);
      assert line == [':'] + line[1..];
    } else {
      Reprint(b + [line[0]], line[1..]);
      EscapeAppend(b, line[0]);
      assert line == [line[0]] + line[1..];
    }
  }

  lemma {:induction false} EscapedIsWellEscaped(field: string, rest: string)
    requires IsWellEscaped(rest)
    ensures IsWellEscaped(Escape(field) + rest)
  {
    if field == "" {
      assert Escape(field) + rest == rest;
    } else {
      EscapedIsWellEscaped(field[1..], rest);
      var tail := Escape(field[1..]) + rest;
      var line := Escape(field) + rest;
      if field[0] == ':' || field[0] == '\\' {
        assert line == ['\\', field[0]] + tail && line[2..] == tail;
      } else {
        assert line == [field[0]] + tail && line[1..] == tail;
      }
    }
  }

  lemma {:induction false} PrintedIsWellEscaped(fields: seq<string>)
    requires fields != []
    ensures IsWellEscaped(TerseLine(fields))
  {
    if |fields| == 1 {
      EscapedIsWellEscaped(fields[0], "");
      assert Escape(fields[0]) + "" == Escape(fields[0]);
    } else {
      PrintedIsWellEscaped(fields[1..]);
      var rest := [':'] + TerseLine(fields[1..]);
      assert rest[1..] == TerseLine(fields[1..]);
      EscapedIsWellEscaped(fields[0], rest);
      assert Escape(fields[0]) + [':'] + TerseLine(fields[1..]) == Escape(fields[0]) + rest;
    }
  }

  // The parser accepts any line; printing its fields gives the line back exactly when
  // the line is well escaped.
  lemma ReprintIff(line: string)
    ensures TerseLine(SplitFrom("", line)) == line <==> IsWellEscaped(line)
  {
    if IsWellEscaped(line) {
      Reprint("", line);
    }
    PrintedIsWellEscaped(SplitFrom("", line));
  }
}
