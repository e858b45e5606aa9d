/** The string operations the CSV handling relies on, with Rust's `str`
    semantics: `trim` (Unicode White_Space at both ends), `split` on a single
    character (always at least one piece, empty pieces kept), `join` and
    concatenation of a sequence of strings. */
module Text {

  /** Rust's `char::is_whitespace`: the Unicode White_Space property. */
  predicate IsWhitespace(c: char) {
    || ('\t' <= c <= '\r')
    || c == ' '
    || c == '\U{85}'
    || c == '\U{A0}'
    || c == '\U{1680}'
    || ('\U{2000}' <= c <= '\U{200A}')
    || c == '\U{2028}'
    || c == '\U{2029}'
    || c == '\U{202F}'
    || c == '\U{205F}'
    || c == '\U{3000}'
  }

  /** `str::trim_start`: drops the leading white space. */
  function TrimStart(s: string): (r: string)
    ensures |r| <= |s|
    ensures |r| > 0 ==> !IsWhitespace(r[0])
    decreases |s|
  {
    if |s| > 0 && IsWhitespace(s[0]) then TrimStart(s[1..]) else s
  }

  /** `str::trim_end`: drops the trailing white space. */
  function TrimEnd(s: string): (r: string)
    ensures |r| <= |s|
    ensures |r| > 0 ==> !IsWhitespace(r[|r| - 1])
    decreases |s|
  {
    if |s| > 0 && IsWhitespace(s[|s| - 1]) then TrimEnd(s[..|s| - 1]) else s
  }

  /** `str::trim`: drops the white space at both ends. */
  function Trim(s: string): (r: string)
    ensures |r| <= |s|
    ensures |r| > 0 ==> !IsWhitespace(r[0]) && !IsWhitespace(r[|r| - 1])
  {
    var t := TrimStart(s);
    var r := TrimEnd(t);
    TrimEndIsPrefix(t);
    r
  }

  /** `TrimStart` keeps a suffix. */
  lemma {:induction false} TrimStartIsSuffix(s: string)
    ensures TrimStart(s) == s[|s| - |TrimStart(s)|..]
    decreases |s|
  {
    if |s| > 0 && IsWhitespace(s[0]) {
      TrimStartIsSuffix(s[1..]);
    }
  }

  /** `TrimEnd` keeps a prefix. */
  lemma {:induction false} TrimEndIsPrefix(s: string)
    ensures TrimEnd(s) == s[..|TrimEnd(s)|]
    decreases |s|
  {
    if |s| > 0 && IsWhitespace(s[|s| - 1]) {
      TrimEndIsPrefix(s[..|s| - 1]);
    }
  }

  /** Everything `TrimStart` drops is white space. */
  lemma {:induction false} TrimStartDropsWhitespace(s: string)
    ensures forall i :: 0 <= i < |s| - |TrimStart(s)| ==> IsWhitespace(s[i])
    decreases |s|
  {
    if |s| > 0 && IsWhitespace(s[0]) {
      TrimStartDropsWhitespace(s[1..]);
      assert forall i :: 1 <= i < |s| ==> s[i] == s[1..][i - 1];
    }
  }

  /** Everything `TrimEnd` drops is white space. */
  lemma {:induction false} TrimEndDropsWhitespace(s: string)
    ensures forall i :: |TrimEnd(s)| <= i < |s| ==> IsWhitespace(s[i])
    decreases |s|
  {
    if |s| > 0 && IsWhitespace(s[|s| - 1]) {
      TrimEndDropsWhitespace(s[..|s| - 1]);
    }
  }

  /** `Trim(s)` is the infix of `s` left when the white space at both ends
      is dropped, and everything dropped is white space. */
  lemma TrimIsInfix(s: string)
    ensures var lead := |s| - |TrimStart(s)|;
      var r := Trim(s);
      && lead + |r| <= |s|
      && r == s[lead..lead + |r|]
      && (forall i :: 0 <= i < lead ==> IsWhitespace(s[i]))
      && (forall i :: lead + |r| <= i < |s| ==> IsWhitespace(s[i]))
  {
    var t := TrimStart(s);
    var lead := |s| - |t|;
    var r := TrimEnd(t);
    TrimStartDropsWhitespace(s);
    TrimEndDropsWhitespace(t);
    TrimStartIsSuffix(s);
    TrimEndIsPrefix(t);
    assert t == s[lead..];
    forall i | lead + |r| <= i < |s|
      ensures IsWhitespace(s[i])
    {
      assert s[i] == t[i - lead];
    }
  }

  /** `Vec<&str>::join(sep)`: the first part, then every later part after
      a separator; joining nothing gives the empty string. */
  function Join(parts: seq<string>, sep: string): string
  {
    if |parts| == 0 then ""
    else if |parts| == 1 then parts[0]
    else parts[0] + sep + Join(parts[1..], sep)
  }

  /** A join is the first part followed by every later part with the
      separator in front of it. */
  lemma {:induction false} JoinIsConcat(parts: seq<string>, sep: string)
    requires |parts| > 0
    ensures Join(parts, sep) == parts[0] + Concat(Prefixed(parts[1..], sep))
    decreases |parts|
  {
    if |parts| > 1 {
      JoinIsConcat(parts[1..], sep);
      assert parts[1..][1..] == parts[2..];
      assert Prefixed(parts[1..], sep)[1..] == Prefixed(parts[2..], sep);
    }
  }

  /** Every part with `sep` in front of it. */
  function Prefixed(parts: seq<string>, sep: string): (r: seq<string>)
    ensures |r| == |parts|
    ensures forall i :: 0 <= i < |parts| ==> r[i] == sep + parts[i]
  {
    seq(|parts|, i requires 0 <= i < |parts| => sep + parts[i])
  }

  /** The concatenation of all `parts`, in order. */
  function Concat(parts: seq<string>): (r: string)
    ensures |parts| > 0 ==> r == parts[0] + Concat(parts[1..])
  {
    if |parts| == 0 then "" else parts[0] + Concat(parts[1..])
  }

  /** `str::split(sep)` on a single character: the pieces between the
      occurrences of `sep`; `n` occurrences give `n + 1` pieces, so the
      empty string gives one empty piece. */
  function Split(s: string, sep: char): (r: seq<string>)
    ensures |r| >= 1
    decreases |s|
  {
    if |s| == 0 then [""]
    else
      var rest := Split(s[1..], sep);
      if s[0] == sep then [""] + rest
      else [[s[0]] + rest[0]] + rest[1..]
  }

  /** No piece of a split contains the separator. */
  lemma {:induction false} SplitPiecesLackSeparator(s: string, sep: char)
    ensures forall i :: 0 <= i < |Split(s, sep)| ==> sep !in Split(s, sep)[i]
    decreases |s|
  {
    if |s| > 0 {
      SplitPiecesLackSeparator(s[1..], sep);
    }
  }

  /** Joining the pieces of a split with the separator gives back the
      string. */
  lemma {:induction false} JoinSplit(s: string, sep: char)
    ensures Join(Split(s, sep), [sep]) == s
    decreases |s|
  {
    if |s| > 0 {
      JoinSplit(s[1..], sep);
      var rest := Split(s[1..], sep);
      if s[0] == sep {
        assert [sep] + Join(rest, [sep]) == s;
      } else {
        var r := [[s[0]] + rest[0]] + rest[1..];
        assert Join(r, [sep]) == [s[0]] + Join(rest, [sep]) by {
          if |rest| > 1 {
            assert rest == [rest[0]] + rest[1..];
          }
        }
        assert [s[0]] + s[1..] == s;
      }
    }
  }

  /** `Split` undoes `Join` when no piece contains the separator. */
  lemma {:induction false} SplitJoin(parts: seq<string>, sep: char)
    requires |parts| >= 1
    requires forall i :: 0 <= i < |parts| ==> sep !in parts[i]
    ensures Split(Join(parts, [sep]), sep) == parts
    decreases |parts|, |parts[0]|
  {
    if |parts[0]| == 0 {
      if |parts| == 1 {
      } else {
        var s := Join(parts, [sep]);
        assert s == [sep] + Join(parts[1..], [sep]);
        assert s[1..] == Join(parts[1..], [sep]);
        SplitJoin(parts[1..], sep);
        assert parts == [""] + parts[1..];
      }
    } else {
      var c := parts[0][0];
      var tail := [parts[0][1..]] + parts[1..];
      assert sep !in parts[0][1..] by {
        assert forall k :: 0 <= k < |parts[0][1..]| ==> parts[0][1..][k] == parts[0][k + 1];
      }
      SplitJoin(tail, sep);
      var s := Join(parts, [sep]);
      assert s == [c] + Join(tail, [sep]) by {
        assert parts[0] == [c] + parts[0][1..];
        if |parts| > 1 {
          assert tail[1..] == parts[1..];
        }
      }
      assert s[0] == c && s[1..] == Join(tail, [sep]);
      assert c != sep by {
        assert parts[0][0] in parts[0];
      }
      var rest := Split(s[1..], sep);
      assert rest == tail;
      assert [[c] + rest[0]] + rest[1..] == parts by {
        assert [c] + parts[0][1..] == parts[0];
      }
    }
  }

  /** The number of occurrences of `c` in `s`. */
  function Count(s: string, c: char): nat
  {
    if |s| == 0 then 0 else (if s[0] == c then 1 else 0) + Count(s[1..], c)
  }

  /** `Split` yields one more piece than there are separators. */
  lemma {:induction false} SplitCount(s: string, sep: char)
    ensures |Split(s, sep)| == Count(s, sep) + 1
    decreases |s|
  {
    if |s| > 0 {
      SplitCount(s[1..], sep);
    }
  }

  /** `s` has no white space at either end and is not empty. */
  predicate Trimmed(s: string)
  {
    |s| > 0 && !IsWhitespace(s[0]) && !IsWhitespace(s[|s| - 1])
  }

  /** Trimming a string that has no white space at its ends changes nothing. */
  lemma TrimTrimmed(s: string)
    requires Trimmed(s) || |s| == 0
    ensures Trim(s) == s
  {
    if |s| > 0 {
      assert TrimStart(s) == s;
      assert TrimEnd(s) == s;
    }
  }

  /** Trimming a string that ends in a newline and is otherwise trimmed
      drops exactly that newline. */
  lemma TrimFinalNewline(s: string)
    requires Trimmed(s)
    ensures Trim(s + "\n") == s
  {
    var t := s + "\n";
    assert t[0] == s[0];
    assert TrimStart(t) == t;
    assert t[..|t| - 1] == s;
    assert TrimEnd(t) == TrimEnd(s);
    assert TrimEnd(s) == s;
  }

  /** The first character of a join is the first character of its first
      piece. */
  lemma {:induction false} JoinFirst(parts: seq<string>, sep: string)
    requires |parts| > 0 && |parts[0]| > 0
    ensures |Join(parts, sep)| > 0 && Join(parts, sep)[0] == parts[0][0]
  {
  }

  /** The last character of a join is the last character of its last
      piece. */
  lemma {:induction false} JoinLast(parts: seq<string>, sep: string)
    requires |parts| > 0 && |parts[|parts| - 1]| > 0
    ensures var j := Join(parts, sep);
      |j| > 0 && j[|j| - 1] == parts[|parts| - 1][|parts[|parts| - 1]| - 1]
    decreases |parts|
  {
    if |parts| > 1 {
      JoinLast(parts[1..], sep);
    }
  }

  /** A join of trimmed pieces is trimmed. */
  lemma JoinTrimmed(parts: seq<string>, sep: string)
    requires |parts| > 0
    requires forall i :: 0 <= i < |parts| ==> Trimmed(parts[i])
    ensures Trimmed(Join(parts, sep))
  {
    JoinFirst(parts, sep);
    JoinLast(parts, sep);
  }

  /** A character that is neither the separator nor in any piece is not in
      the join. */
  lemma {:induction false} NotInJoin(parts: seq<string>, sep: char, c: char)
    requires c != sep
    requires forall i :: 0 <= i < |parts| ==> c !in parts[i]
    ensures c !in Join(parts, [sep])
    decreases |parts|
  {
    if |parts| > 1 {
      NotInJoin(parts[1..], sep, c);
    }
  }

  /** Every string followed by a newline. */
  function Lines(ls: seq<string>): (r: string)
    ensures |ls| > 0 ==> r == Join(ls, "\n") + "\n"
    decreases |ls|
  {
    if |ls| == 0 then ""
    else
      var rest := Lines(ls[1..]);
      assert |ls| > 1 ==> rest == Join(ls[1..], "\n") + "\n";
      ls[0] + "\n" + rest
  }

  /** `Lines` is the concatenation of the newline-terminated strings. */
  lemma {:induction false} LinesConcat(ls: seq<string>)
    ensures Lines(ls) == Concat(seq(|ls|, i requires 0 <= i < |ls| => ls[i] + "\n"))
    decreases |ls|
  {
    if |ls| > 0 {
      LinesConcat(ls[1..]);
      var terminated := seq(|ls|, i requires 0 <= i < |ls| => ls[i] + "\n");
      assert terminated[1..] == seq(|ls[1..]|, i requires 0 <= i < |ls[1..]| => ls[1..][i] + "\n");
    }
  }

  /** `Trim` applied to every piece. */
  function TrimEach(parts: seq<string>): (r: seq<string>)
    ensures |r| == |parts|
    ensures forall i :: 0 <= i < |r| ==> r[i] == Trim(parts[i])
  {
    seq(|parts|, i requires 0 <= i < |parts| => Trim(parts[i]))
  }

  /** Trimming trimmed pieces changes nothing. */
  lemma TrimEachTrimmed(parts: seq<string>)
    requires forall i :: 0 <= i < |parts| ==> Trimmed(parts[i])
    ensures TrimEach(parts) == parts
  {
    forall i | 0 <= i < |parts|
      ensures Trim(parts[i]) == parts[i]
    {
      TrimTrimmed(parts[i]);
    }
  }
}
