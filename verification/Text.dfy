// Byte-string helpers: the parts of Go's strings and bufio packages that the
// codecs below rely on. A Go string is a byte string; it is a Dafny string here,
// and the few places where a byte is below 256 matters say so.
module Text {

  datatype Option<+T> = None | Some(value: T)

  predicate IsSpace(c: char) {
    c == ' ' || c == '\t' || c == '\n' || c == '\r' || c == '\U{0B}' || c == '\U{0C}'
  }

  // ---- trimming -------------------------------------------------------------

  function TrimLeft(s: string): string {
    if s != "" && IsSpace(s[0]) then TrimLeft(s[1..]) else s
  }

  function TrimRight(s: string): string {
    if s != "" && IsSpace(s[|s| - 1]) then TrimRight(s[..|s| - 1]) else s
  }

  function Trim(s: string): string {
    TrimRight(TrimLeft(s))
  }

  predicate IsTrimmed(s: string) {
    s == "" || (!IsSpace(s[0]) && !IsSpace(s[|s| - 1]))
  }

  lemma {:induction false} TrimLeftStarts(s: string)
    ensures TrimLeft(s) == "" || !IsSpace(TrimLeft(s)[0])
    ensures forall c :: c in TrimLeft(s) ==> c in s
  {
    if s != "" && IsSpace(s[0]) {
      TrimLeftStarts(s[1..]);
    }
  }

  lemma {:induction false} TrimRightEnds(s: string)
    ensures TrimRight(s) == "" || !IsSpace(TrimRight(s)[|TrimRight(s)| - 1])
    ensures TrimRight(s) <= s
  {
    if s != "" && IsSpace(s[|s| - 1]) {
      TrimRightEnds(s[..|s| - 1]);
    }
  }

  // Trimming leaves exactly the trimmed strings alone, and always ends there.
  lemma TrimIsTrimmed(s: string)
    ensures IsTrimmed(Trim(s))
    ensures IsTrimmed(s) <==> Trim(s) == s
    ensures forall c :: c in Trim(s) ==> c in s
  {
    TrimLeftStarts(s);
    TrimRightEnds(TrimLeft(s));
  }

  predicate AllSpace(s: string) {
    forall i :: 0 <= i < |s| ==> IsSpace(s[i])
  }

  // Trimming drops what is in front of a text; behind it, it drops no more than the
  // text can spare.
  lemma {:induction false} TrimLeftPad(pad: string, s: string)
    requires AllSpace(pad) && s != "" && !IsSpace(s[0])
    ensures TrimLeft(pad + s) == s
  {
    if pad == "" {
      assert pad + s == s;
    } else {
      assert (pad + s)[1..] == pad[1..] + s;
      TrimLeftPad(pad[1..], s);
    }
  }

  lemma {:induction false} TrimRightKeeps(s: string, rest: string)
    requires s != "" && !IsSpace(s[|s| - 1])
    ensures s <= TrimRight(s + rest)
    decreases |rest|
  {
    if rest == "" {
      assert s + rest == s;
    } else {
      var all := s + rest;
      assert all[..|all| - 1] == s + rest[..|rest| - 1];
      TrimRightKeeps(s, rest[..|rest| - 1]);
    }
  }

  lemma TrimKeepsPrefix(pad: string, s: string, rest: string)
    requires AllSpace(pad) && s != "" && !IsSpace(s[0]) && !IsSpace(s[|s| - 1])
    ensures s <= Trim(pad + s + rest)
  {
    assert pad + s + rest == pad + (s + rest);
    TrimLeftPad(pad, s + rest);
    TrimRightKeeps(s, rest);
  }

  lemma {:induction false} TrimRightPad(s: string, pad: string)
    requires AllSpace(pad) && (s == "" || !IsSpace(s[|s| - 1]))
    ensures TrimRight(s + pad) == s
    decreases |pad|
  {
    if pad == "" {
      assert s + pad == s;
    } else {
      var all := s + pad;
      assert all[..|all| - 1] == s + pad[..|pad| - 1];
      TrimRightPad(s, pad[..|pad| - 1]);
    }
  }

  lemma {:induction false} TrimAllSpace(pad: string)
    requires AllSpace(pad)
    ensures TrimLeft(pad) == ""
  {
    if pad != "" {
      TrimAllSpace(pad[1..]);
    }
  }

  lemma TrimPadded(front: string, s: string, back: string)
    requires AllSpace(front) && AllSpace(back) && IsTrimmed(s)
    ensures Trim(front + s + back) == s
  {
    if s == "" {
      assert AllSpace(front + s + back);
      TrimAllSpace(front + s + back);
    } else {
      assert front + s + back == front + (s + back);
      TrimLeftPad(front, s + back);
      TrimRightPad(s, back);
    }
  }

  // ---- lower case -----------------------------------------------------------

  function LowerChar(c: char): char {
    if 'A' <= c <= 'Z' then (c as int + 32) as char else c
  }

  function Lower(s: string): (r: string)
    ensures |r| == |s|
    ensures forall i :: 0 <= i < |s| ==> r[i] == LowerChar(s[i])
  {
    seq(|s|, i requires 0 <= i < |s| => LowerChar(s[i]))
  }

  // ---- searching ------------------------------------------------------------

  // strings.IndexByte: the first index, or -1.
  function IndexByte(s: string, c: char): (i: int)
    ensures -1 <= i < |s|
    ensures i == -1 <==> c !in s
    ensures i >= 0 ==> s[i] == c && c !in s[..i]
  {
    if s == "" then -1
    else if s[0] == c then 0
    else
      var j := IndexByte(s[1..], c);
      assert j >= 0 ==> s[..j + 1] == [s[0]] + s[1..][..j];
      if j < 0 then -1 else j + 1
  }

  // strings.LastIndexByte.
  function LastIndexByte(s: string, c: char): (i: int)
    ensures -1 <= i < |s|
  {
    if s == "" then -1
    else if s[|s| - 1] == c then |s| - 1
    else LastIndexByte(s[..|s| - 1], c)
  }

  lemma {:induction false} IndexByteAt(a: string, c: char, b: string)
    requires c !in a
    ensures IndexByte(a + [c] + b, c) == |a|
    ensures (a + [c] + b)[..|a|] == a && (a + [c] + b)[|a| + 1..] == b
  {
    if a != "" {
      IndexByteAt(a[1..], c, b);
      assert (a + [c] + b)[1..] == a[1..] + [c] + b;
    }
  }

  lemma {:induction false} LastIndexByteAt(a: string, c: char, b: string)
    requires c !in b
    ensures LastIndexByte(a + [c] + b, c) == |a|
    ensures (a + [c] + b)[..|a|] == a && (a + [c] + b)[|a| + 1..] == b
    decreases |b|
  {
    if b != "" {
      var init := b[..|b| - 1];
      LastIndexByteAt(a, c, init);
      assert (a + [c] + b)[..|a| + |b|] == a + [c] + init;
    }
  }

  lemma {:induction false} LastIndexByteHit(s: string, c: char)
    ensures var i := LastIndexByte(s, c);
            i >= 0 ==> s[i] == c && s == s[..i] + [c] + s[i + 1..]
  {
    if s != "" && s[|s| - 1] != c {
      LastIndexByteHit(s[..|s| - 1], c);
    }
  }

  predicate HasSuffix(s: string, t: string) {
    |t| <= |s| && s[|s| - |t|..] == t
  }

  predicate OccursAt(s: string, t: string, i: nat) {
    i + |t| <= |s| && s[i..i + |t|] == t
  }

  predicate Contains(s: string, t: string) {
    exists i: nat | i <= |s| :: OccursAt(s, t, i)
  }

  lemma LowerSlice(s: string, i: nat, j: nat)
    requires i <= j <= |s|
    ensures Lower(s)[i..j] == Lower(s[i..j])
  {
  }

  // The word occurs, in whatever case.
  ghost predicate Mentions(s: string, word: string) {
    exists pre, w, post :: s == pre + w + post && Lower(w) == word
  }

  lemma ContainsIffMentions(s: string, word: string)
    ensures Contains(Lower(s), word) <==> Mentions(s, word)
  {
    if Contains(Lower(s), word) {
      var i: nat :| i <= |s| && OccursAt(Lower(s), word, i);
      var pre, w, post := s[..i], s[i..i + |word|], s[i + |word|..];
      LowerSlice(s, i, i + |word|);
      assert s == pre + w + post;
    }
    if Mentions(s, word) {
      var pre, w, post :| s == pre + w + post && Lower(w) == word;
      assert s[|pre|..|pre| + |w|] == w;
      LowerSlice(s, |pre|, |pre| + |w|);
      assert OccursAt(Lower(s), word, |pre|);
    }
  }

  // ---- splitting and joining ------------------------------------------------

  // strings.Split on a one-byte separator.
  function Split(s: string, sep: char): (r: seq<string>)
    ensures |r| > 0
    ensures forall p :: p in r ==> sep !in p
  {
    if s == "" then [""]
    else
      var rest := Split(s[1..], sep);
      if s[0] == sep then [""] + rest else [[s[0]] + rest[0]] + rest[1..]
  }

  function Join(parts: seq<string>, sep: char): string {
    if parts == [] then ""
    else if |parts| == 1 then parts[0]
    else parts[0] + [sep] + Join(parts[1..], sep)
  }

  lemma {:induction false} SplitPrefix(a: string, sep: char, b: string)
    requires sep !in a
    ensures Split(a + [sep] + b, sep) == [a] + Split(b, sep)
  {
    var s := a + [sep] + b;
    if a == "" {
      assert s == [sep] + b && s[1..] == b;
    } else {
      assert s[1..] == a[1..] + [sep] + b;
      SplitPrefix(a[1..], sep, b);
      assert [a[0]] + a[1..] == a;
    }
  }

  lemma {:induction false} SplitAtom(a: string, sep: char)
    requires sep !in a
    ensures Split(a, sep) == [a]
  {
    if a != "" {
      SplitAtom(a[1..], sep);
      assert [a[0]] + a[1..] == a;
    }
  }

  // Splitting undoes joining exactly when no part holds the separator.
  lemma {:induction false} SplitJoin(parts: seq<string>, sep: char)
    requires parts != []
    ensures (forall p :: p in parts ==> sep !in p) <==> Split(Join(parts, sep), sep) == parts
  {
    if forall p :: p in parts ==> sep !in p {
      if |parts| == 1 {
        SplitAtom(parts[0], sep);
      } else {
        SplitJoin(parts[1..], sep);
        SplitPrefix(parts[0], sep, Join(parts[1..], sep));
      }
    }
  }

  lemma {:induction false} JoinSplit(s: string, sep: char)
    ensures Join(Split(s, sep), sep) == s
  {
    if s != "" {
      JoinSplit(s[1..], sep);
      var rest := Split(s[1..], sep);
      if s[0] == sep {
        assert ([""] + rest)[1..] == rest;
      } else {
        var r := [[s[0]] + rest[0]] + rest[1..];
        assert r[1..] == rest[1..];
        if |rest| > 1 {
          assert Join(r, sep) == [s[0]] + (rest[0] + [sep] + Join(rest[1..], sep));
        }
      }
    }
  }

  // ---- lines ----------------------------------------------------------------

  // Lines as bufio.Scanner yields them: the empty piece after a final newline is
  // not a line.
  function Lines(s: string): (r: seq<string>)
    ensures forall l :: l in r ==> '\n' !in l
  {
    var parts := Split(s, '\n');
    if parts[|parts| - 1] == "" then parts[..|parts| - 1] else parts
  }

  function Unlines(lines: seq<string>): string {
    if lines == [] then "" else lines[0] + "\n" + Unlines(lines[1..])
  }

  lemma {:induction false} SplitUnlines(lines: seq<string>)
    requires forall l :: l in lines ==> '\n' !in l
    ensures Split(Unlines(lines), '\n') == lines + [""]
  {
    if lines != [] {
      SplitUnlines(lines[1..]);
      SplitPrefix(lines[0], '\n', Unlines(lines[1..]));
      assert lines[0] + "\n" + Unlines(lines[1..]) == lines[0] + ['\n'] + Unlines(lines[1..]);
      assert [lines[0]] + (lines[1..] + [""]) == lines + [""];
    }
  }

  lemma LinesUnlines(lines: seq<string>)
    requires forall l :: l in lines ==> '\n' !in l
    ensures Lines(Unlines(lines)) == lines
  {
    SplitUnlines(lines);
  }

  lemma {:induction false} UnlinesAppend(a: seq<string>, b: seq<string>)
    ensures Unlines(a + b) == Unlines(a) + Unlines(b)
  {
    if a == [] {
      assert a + b == b;
    } else {
      assert (a + b)[1..] == a[1..] + b;
      UnlinesAppend(a[1..], b);
    }
  }

  // ---- fields ---------------------------------------------------------------

  function WordLength(s: string): (n: nat)
    ensures n <= |s|
    ensures s != "" && !IsSpace(s[0]) ==> n > 0
    ensures IsWordChars(s[..n])
    ensures n < |s| ==> IsSpace(s[n])
  {
    if s == "" || IsSpace(s[0]) then 0
    else
      var n := WordLength(s[1..]);
      assert s[..n + 1] == [s[0]] + s[1..][..n];
      n + 1
  }

  predicate IsWordChars(s: string) {
    forall i :: 0 <= i < |s| ==> !IsSpace(s[i])
  }

  predicate IsWord(s: string) {
    s != "" && IsWordChars(s)
  }

  // strings.Fields: the maximal runs of non-space bytes.
  function Fields(s: string): (r: seq<string>)
    ensures forall w :: w in r ==> IsWord(w)
    decreases |s|
  {
    if s == "" then []
    else if IsSpace(s[0]) then Fields(s[1..])
    else
      var n := WordLength(s);
      [s[..n]] + Fields(s[n..])
  }

  lemma {:induction false} WordLengthOfWord(w: string, rest: string)
    requires IsWordChars(w)
    requires rest == "" || IsSpace(rest[0])
    ensures WordLength(w + rest) == |w|
  {
    if w == "" {
      assert w + rest == rest;
    } else {
      assert (w + rest)[1..] == w[1..] + rest;
      WordLengthOfWord(w[1..], rest);
    }
  }

  lemma FieldsOfWord(w: string, rest: string)
    requires IsWord(w)
    requires rest == "" || IsSpace(rest[0])
    ensures Fields(w + rest) == [w] + Fields(rest)
  {
    WordLengthOfWord(w, rest);
    assert (w + rest)[..|w|] == w && (w + rest)[|w|..] == rest;
  }

  // Space-joined words are read back exactly when each one is a word.
  lemma {:induction false} FieldsJoin(ws: seq<string>)
    ensures (forall w :: w in ws ==> IsWord(w)) <==> Fields(Join(ws, ' ')) == ws
  {
    if forall w :: w in ws ==> IsWord(w) {
      if |ws| == 1 {
        FieldsOfWord(ws[0], "");
        assert ws[0] + "" == ws[0];
      } else if |ws| > 1 {
        FieldsJoin(ws[1..]);
        var rest := [' '] + Join(ws[1..], ' ');
        assert Join(ws, ' ') == ws[0] + rest;
        FieldsOfWord(ws[0], rest);
        assert rest[1..] == Join(ws[1..], ' ');
      }
    }
  }

  // ---- filtering lists ------------------------------------------------------

  // The results of f, in order, where it has one.
  ghost function FilterMap<A, B>(f: A -> Option<B>, xs: seq<A>): seq<B> {
    if xs == [] then []
    else FilterMap(f, xs[..|xs| - 1]) + match f(xs[|xs| - 1]) case Some(y) => [y] case None => []
  }

  lemma FilterMapNext<A, B>(f: A -> Option<B>, xs: seq<A>, i: nat)
    requires i < |xs|
    ensures FilterMap(f, xs[..i + 1]) == FilterMap(f, xs[..i]) + match f(xs[i]) case Some(y) => [y] case None => []
  {
    assert xs[..i + 1][..i] == xs[..i];
  }

  lemma {:induction false} FilterMapSize<A, B>(f: A -> Option<B>, xs: seq<A>)
    ensures |FilterMap(f, xs)| <= |xs|
  {
    if xs != [] {
      FilterMapSize(f, xs[..|xs| - 1]);
    }
  }

  lemma {:induction false} FilterMapAppend<A, B>(f: A -> Option<B>, a: seq<A>, b: seq<A>)
    ensures FilterMap(f, a + b) == FilterMap(f, a) + FilterMap(f, b)
    decreases |b|
  {
    if b == [] {
      assert a + b == a;
    } else {
      var init := b[..|b| - 1];
      assert (a + b)[..|a + b| - 1] == a + init;
      FilterMapAppend(f, a, init);
    }
  }

  lemma FilterMapOne<A, B>(f: A -> Option<B>, x: A)
    ensures FilterMap(f, [x]) == match f(x) case Some(y) => [y] case None => []
  {
    assert [x][..0] == [];
  }

  lemma {:induction false} FilterMapMember<A, B>(f: A -> Option<B>, xs: seq<A>, i: nat)
    requires i < |xs| && f(xs[i]).Some?
    ensures f(xs[i]).value in FilterMap(f, xs)
  {
    if i < |xs| - 1 {
      FilterMapMember(f, xs[..|xs| - 1], i);
    }
  }

  predicate IsFixed<A(==)>(f: A -> Option<A>, xs: seq<A>) {
    forall i :: 0 <= i < |xs| ==> f(xs[i]) == Some(xs[i])
  }

  lemma IsFixedSnoc<A>(f: A -> Option<A>, xs: seq<A>, last: A)
    ensures IsFixed(f, xs + [last]) <==> IsFixed(f, xs) && f(last) == Some(last)
  {
    var ys := xs + [last];
    assert ys[|xs|] == last;
    assert forall i :: 0 <= i < |xs| ==> ys[i] == xs[i];
  }

  lemma SnocEqual<A>(a: seq<A>, x: A, b: seq<A>, y: A)
    ensures a + [x] == b + [y] <==> a == b && x == y
  {
    if a + [x] == b + [y] {
      assert |a| == |b| && (a + [x])[|a|] == x && (b + [y])[|b|] == y;
      assert (a + [x])[..|a|] == a && (b + [y])[..|b|] == b;
    }
  }

  // Filtering leaves a list as it is exactly when f is the identity on it.
  lemma {:induction false} FilterMapIff<A>(f: A -> Option<A>, xs: seq<A>)
    ensures FilterMap(f, xs) == xs <==> IsFixed(f, xs)
  {
    if xs != [] {
      var init, last := xs[..|xs| - 1], xs[|xs| - 1];
      assert xs == init + [last];
      FilterMapIff(f, init);
      FilterMapSize(f, init);
      IsFixedSnoc(f, init, last);
      match f(last)
      case Some(y) => SnocEqual(FilterMap(f, init), y, init, last);
      case None => assert |FilterMap(f, xs)| < |xs|;
    }
  }

  // Two passes are one.
  lemma {:induction false} FilterMapTwice<A, B, C>(f: A -> Option<B>, g: B -> Option<C>, h: A -> Option<C>, xs: seq<A>)
    requires forall x :: h(x) == match f(x) case Some(y) => g(y) case None => None
    ensures FilterMap(g, FilterMap(f, xs)) == FilterMap(h, xs)
  {
    if xs != [] {
      var init, last := xs[..|xs| - 1], xs[|xs| - 1];
      FilterMapTwice(f, g, h, init);
      var ys := FilterMap(f, init);
      match f(last)
      case Some(y) =>
        assert (ys + [y])[..|ys|] == ys;
      case None =>
        assert ys + [] == ys;
        assert FilterMap(h, xs) == FilterMap(h, init) + [];
    }
  }
}
