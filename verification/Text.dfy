/** The string operations the programs use, over code points. Case folding covers ASCII letters. */
module Text {

  // ---- Characters ----

  /** Unicode white space, as the standard trimming and splitting functions see it. */
  predicate IsSpace(c: char) {
    var u := c as int;
    || 9 <= u <= 13 || u == 32 || u == 0x85 || u == 0xA0 || u == 0x1680 || 0x2000 <= u <= 0x200a
    || u == 0x2028 || u == 0x2029 || u == 0x202f || u == 0x205f || u == 0x3000
  }

  function LowerChar(c: char): char {
    if 'A' <= c <= 'Z' then (c as int + 32) as char else c
  }

  function ToLower(s: string): (r: string)
    ensures |r| == |s|
    ensures forall i :: 0 <= i < |s| ==> r[i] == LowerChar(s[i])
  {
    seq(|s|, i requires 0 <= i < |s| => LowerChar(s[i]))
  }

  /** White space is tab to carriage return, the space, and the spaces and separators beyond ASCII; the characters
      beside them are not. */
  lemma SpaceExamples()
    ensures forall c :: c in "\t\n\r \U{B}\U{C}\U{85}\U{A0}\U{1680}\U{2000}\U{200A}" ==> IsSpace(c)
    ensures forall c :: c in "\U{2028}\U{2029}\U{202F}\U{205F}\U{3000}" ==> IsSpace(c)
    ensures forall c :: c in "\U{8}\U{E}!\U{1F}aZ09.\U{84}\U{86}\U{A1}\U{1FFF}\U{200B}\U{202A}" ==> !IsSpace(c)
  {
  }

  lemma LowerExamples()
    ensures LowerChar('A') == 'a' && LowerChar('M') == 'm' && LowerChar('Z') == 'z'
    ensures forall c :: c in "az09@[`{.-_*" ==> LowerChar(c) == c
  {
  }

  // ---- Prefixes, suffixes, trimming ----

  predicate HasPrefix(s: string, p: string) {
    p <= s
  }

  predicate HasSuffix(s: string, t: string) {
    |t| <= |s| && s[|s| - |t|..] == t
  }

  function TrimSuffix(s: string, t: string): string {
    if HasSuffix(s, t) then s[..|s| - |t|] else s
  }

  function TrimLeft(s: string): (r: string)
    ensures |r| <= |s| && (r != "" ==> !IsSpace(r[0]))
    ensures s != "" && !IsSpace(s[0]) ==> r == s
  {
    if s == "" || !IsSpace(s[0]) then s else TrimLeft(s[1..])
  }

  function TrimRight(s: string): (r: string)
    ensures r <= s && (r != "" ==> !IsSpace(r[|r| - 1]))
    ensures s != "" && !IsSpace(s[|s| - 1]) ==> r == s
  {
    if s == "" || !IsSpace(s[|s| - 1]) then s else TrimRight(s[..|s| - 1])
  }

  function TrimSpace(s: string): string {
    TrimRight(TrimLeft(s))
  }

  /** No white space at either end. */
  predicate Trimmed(s: string) {
    s == "" || (!IsSpace(s[0]) && !IsSpace(s[|s| - 1]))
  }

  lemma TrimSpaceFixes(s: string)
    ensures Trimmed(s) <==> TrimSpace(s) == s
  {
    var l := TrimLeft(s);
    if TrimSpace(s) == s && s != "" {
      assert |TrimRight(l)| <= |l| <= |s|;
    }
  }

  // ---- Searching and splitting ----

  /** The position of the first `c`, or the length. */
  function IndexOf(s: string, c: char): (i: nat)
    ensures i <= |s|
    ensures forall j :: 0 <= j < i ==> s[j] != c
    ensures i < |s| ==> s[i] == c
  {
    if s == "" || s[0] == c then 0 else 1 + IndexOf(s[1..], c)
  }

  /** The pieces between occurrences of `c`; never empty. */
  function Split(s: string, c: char): (parts: seq<string>)
    ensures |parts| >= 1
    decreases |s|
  {
    var i := IndexOf(s, c);
    if i == |s| then [s] else [s[..i]] + Split(s[i + 1..], c)
  }

  function Join(parts: seq<string>, sep: char): string {
    if |parts| == 0 then "" else if |parts| == 1 then parts[0] else parts[0] + [sep] + Join(parts[1..], sep)
  }

  lemma IndexOfIs(s: string, c: char, i: nat)
    requires i <= |s| && (forall j :: 0 <= j < i ==> s[j] != c) && (i < |s| ==> s[i] == c)
    ensures IndexOf(s, c) == i
  {
  }

  lemma SplitCons(first: string, c: char, rest: string)
    requires c !in first
    ensures Split(first + [c] + rest, c) == [first] + Split(rest, c)
  {
    var s := first + [c] + rest;
    IndexOfIs(s, c, |first|);
    assert s[..|first|] == first && s[|first| + 1..] == rest;
  }

  lemma SplitEmpty(c: char)
    ensures Split("", c) == [""]
  {
    IndexOfIs("", c, 0);
  }

  lemma JoinCons(first: string, c: char, rest: seq<string>)
    requires rest != []
    ensures Join([first] + rest, c) == first + [c] + Join(rest, c)
  {
    assert ([first] + rest)[1..] == rest;
  }

  /** Splitting undoes joining pieces free of the separator. */
  lemma {:induction false} SplitJoin(parts: seq<string>, c: char)
    requires |parts| >= 1 && forall p :: p in parts ==> c !in p
    ensures Split(Join(parts, c), c) == parts
  {
    assert parts[0] in parts;
    if |parts| == 1 {
      IndexOfIs(parts[0], c, |parts[0]|);
    } else {
      SplitCons(parts[0], c, Join(parts[1..], c));
      SplitJoin(parts[1..], c);
    }
  }

  /** No piece holds the separator. */
  lemma {:induction false} SplitFree(s: string, c: char)
    ensures forall p :: p in Split(s, c) ==> c !in p
    decreases |s|
  {
    var i := IndexOf(s, c);
    if i == |s| {
    } else {
      SplitFree(s[i + 1..], c);
    }
  }

  lemma SplitUnfolds(s: string, c: char)
    ensures var i := IndexOf(s, c);
            Split(s, c) == if i == |s| then [s] else [s[..i]] + Split(s[i + 1..], c)
  {
    hide IndexOf;
  }

  lemma {:induction false} JoinSplit(s: string, c: char)
    ensures Join(Split(s, c), c) == s
    decreases |s|
  {
    hide Split, IndexOf;
    var i := IndexOf(s, c);
    SplitUnfolds(s, c);
    if i == |s| {
    } else {
      var rest := s[i + 1..];
      JoinSplit(rest, c);
      JoinCons(s[..i], c, Split(rest, c));
      assert s == s[..i] + [c] + rest;
    }
  }

  // ---- Words and lines ----

  /** The position of the first white space, or the length. */
  function WordEnd(s: string): (i: nat)
    ensures i <= |s| && (s != "" && !IsSpace(s[0]) ==> i > 0)
    ensures forall j :: 0 <= j < i ==> !IsSpace(s[j])
    ensures i < |s| ==> IsSpace(s[i])
  {
    if s == "" || IsSpace(s[0]) then 0 else 1 + WordEnd(s[1..])
  }

  /** The words between runs of white space. */
  function Fields(s: string): seq<string>
    decreases |s|
  {
    var t := TrimLeft(s);
    if t == "" then [] else [t[..WordEnd(t)]] + Fields(t[WordEnd(t)..])
  }

  predicate IsWord(w: string) {
    w != "" && forall i :: 0 <= i < |w| ==> !IsSpace(w[i])
  }

  lemma WordEndIs(s: string, i: nat)
    requires i <= |s| && (forall j :: 0 <= j < i ==> !IsSpace(s[j])) && (i < |s| ==> IsSpace(s[i]))
    ensures WordEnd(s) == i
  {
  }

  lemma JoinStarts(words: seq<string>)
    requires words != [] && forall w :: w in words ==> IsWord(w)
    ensures Join(words, ' ') != "" && !IsSpace(Join(words, ' ')[0])
  {
    assert words[0] in words;
  }

  lemma {:induction false} JoinTrimmed(words: seq<string>)
    requires words != [] && forall w :: w in words ==> IsWord(w)
    ensures Trimmed(Join(words, ' ')) && Join(words, ' ') != ""
  {
    assert words[0] in words;
    if |words| == 1 {
    } else {
      JoinTrimmed(words[1..]);
      var s, r := Join(words, ' '), Join(words[1..], ' ');
      assert s[|s| - 1] == r[|r| - 1];
    }
  }

  /** Splitting into words undoes joining them with blanks. */
  lemma {:induction false} FieldsJoin(words: seq<string>)
    requires forall w :: w in words ==> IsWord(w)
    ensures Fields(Join(words, ' ')) == words
  {
    hide Fields, TrimLeft, WordEnd;
    if words == [] {
      FieldsUnfold("");
    } else {
      var s, first := Join(words, ' '), words[0];
      JoinStarts(words);
      assert first in words;
      FieldsUnfold(s);
      if |words| == 1 {
        WordEndIs(s, |s|);
        assert s[..|s|] == s && s[|s|..] == "";
        FieldsUnfold("");
      } else {
        var rest := Join(words[1..], ' ');
        assert s == first + ([' '] + rest);
        WordEndIs(s, |first|);
        assert s[..|first|] == first && s[|first|..] == [' '] + rest;
        FieldsJoin(words[1..]);
        BlankSkipped(rest);
      }
    }
  }

  lemma FieldsUnfold(s: string)
    ensures s == "" ==> Fields(s) == []
    ensures s != "" && !IsSpace(s[0]) ==> WordEnd(s) > 0 && Fields(s) == [s[..WordEnd(s)]] + Fields(s[WordEnd(s)..])
  {
  }

  lemma BlankSkipped(s: string)
    ensures Fields([' '] + s) == Fields(s)
  {
    assert ([' '] + s)[1..] == s;
    assert TrimLeft([' '] + s) == TrimLeft(s);
  }

  /** Indentation does not matter to a trimmed line. */
  lemma IndentTrims(s: string)
    requires s != "" && Trimmed(s)
    ensures TrimSpace("    " + s) == s && TrimSpace(s) == s
  {
    hide TrimLeft, TrimRight;
    BlankTrims(s);
    BlankTrims(" " + s);
    BlankTrims("  " + s);
    BlankTrims("   " + s);
    assert " " + (" " + s) == "  " + s && " " + ("  " + s) == "   " + s && " " + ("   " + s) == "    " + s;
    TrimSpaceFixes(s);
  }

  lemma BlankTrims(s: string)
    ensures TrimLeft(" " + s) == TrimLeft(s)
  {
    assert (" " + s)[1..] == s;
  }

  lemma CommentStays(s: string)
    requires s != "" && s[0] == '#'
    ensures TrimSpace(s) != "" && TrimSpace(s)[0] == '#'
  {
    CommentKept(s);
  }

  lemma {:induction false} CommentKept(s: string)
    requires s != "" && s[0] == '#'
    ensures TrimRight(s) != "" && TrimRight(s)[0] == '#'
  {
    if !IsSpace(s[|s| - 1]) {
    } else {
      CommentKept(s[..|s| - 1]);
    }
  }

  /** Every line ended by a line feed. */
  function Unlines(lines: seq<string>): string {
    if lines == [] then "" else lines[0] + "\n" + Unlines(lines[1..])
  }

  predicate OneLine(s: string) {
    forall i :: 0 <= i < |s| ==> s[i] != '\n'
  }

  lemma OneLineJoins(a: string, b: string)
    ensures OneLine(a + b) <==> OneLine(a) && OneLine(b)
  {
    assert forall i :: 0 <= i < |a| ==> (a + b)[i] == a[i];
    assert forall i :: 0 <= i < |b| ==> (a + b)[|a| + i] == b[i];
  }

  /** Reading the lines back leaves one empty piece at the end. */
  lemma {:induction false} SplitUnlines(lines: seq<string>)
    requires forall l :: l in lines ==> OneLine(l)
    ensures Split(Unlines(lines), '\n') == lines + [""]
  {
    hide Split;
    if lines == [] {
      SplitEmpty('\n');
    } else {
      var first := lines[0];
      assert first in lines && OneLine(first);
      SplitCons(first, '\n', Unlines(lines[1..]));
      SplitUnlines(lines[1..]);
      assert [first] + (lines[1..] + [""]) == lines + [""];
    }
  }

  // ---- Order ----

  /** Code point order, a proper prefix first. */
  predicate Less(a: string, b: string) {
    b != "" && (a == "" || a[0] < b[0] || (a[0] == b[0] && Less(a[1..], b[1..])))
  }

  lemma {:induction false} LessIsStrict(a: string, b: string)
    ensures !(Less(a, b) && Less(b, a)) && !Less(a, a)
    ensures a == b || Less(a, b) || Less(b, a)
  {
    if a != "" && b != "" {
      LessIsStrict(a[1..], b[1..]);
      if a[0] == b[0] && a[1..] == b[1..] {
        assert a == [a[0]] + a[1..] && b == [b[0]] + b[1..];
      }
    } else if a != "" {
      LessIsStrict(a[1..], a[1..]);
    }
  }

  lemma {:induction false} LessIsTransitive(a: string, b: string, c: string)
    requires Less(a, b) && Less(b, c)
    ensures Less(a, c)
  {
    if a != "" && a[0] == b[0] && b[0] == c[0] {
      LessIsTransitive(a[1..], b[1..], c[1..]);
    }
  }
}
