/** Splitting text on '\n', as `String.prototype.split('\n')` does, and the
    facts about it that line framing relies on. */
module Lines {

  predicate AllNoNewline(lines: seq<string>)
  {
    forall i :: 0 <= i < |lines| ==> '\n' !in lines[i]
  }

  /** Each line followed by '\n', concatenated. */
  function Terminated(lines: seq<string>): string
  {
    if lines == [] then [] else lines[0] + "\n" + Terminated(lines[1..])
  }

  lemma {:induction false} TerminatedAppend(a: seq<string>, b: seq<string>)
    ensures Terminated(a + b) == Terminated(a) + Terminated(b)
  {
    if a != [] {
      assert (a + b)[1..] == a[1..] + b;
      TerminatedAppend(a[1..], b);
    } else {
      assert a + b == b;
    }
  }

  /** The pieces of text concatenated in order. */
  function Concat(pieces: seq<string>): string
  {
    if pieces == [] then [] else pieces[0] + Concat(pieces[1..])
  }

  lemma {:induction false} ConcatAppend(a: seq<string>, b: seq<string>)
    ensures Concat(a + b) == Concat(a) + Concat(b)
  {
    if a != [] {
      assert (a + b)[1..] == a[1..] + b;
      ConcatAppend(a[1..], b);
    } else {
      assert a + b == b;
    }
  }

  /** `s.split('\n')`: the pieces between the newlines; never empty. */
  function Split(s: string): (parts: seq<string>)
    ensures |parts| >= 1
  {
    if s == [] then [[]]
    else
      var rest := Split(s[1..]);
      if s[0] == '\n' then [[]] + rest
      else [[s[0]] + rest[0]] + rest[1..]
  }

  /** No piece of `split` holds a '\n', and the pieces before the last, each
      followed by '\n', then the last, spell the text. */
  predicate SplitsInto(s: string, parts: seq<string>)
    requires |parts| >= 1
  {
    AllNoNewline(parts) && Terminated(parts[..|parts| - 1]) + parts[|parts| - 1] == s
  }

  lemma {:induction false} SplitSpec(s: string)
    ensures SplitsInto(s, Split(s))
  {
    if s != [] {
      SplitSpec(s[1..]);
      assert s == [s[0]] + s[1..];
      if s[0] == '\n' {
        SplitAtNewline(s[1..], Split(s[1..]));
      } else {
        SplitAtOther(s[0], s[1..], Split(s[1..]));
      }
    }
  }

  /** A '\n' in front of the text adds an empty first piece. */
  lemma SplitAtNewline(t: string, rest: seq<string>)
    requires |rest| >= 1 && SplitsInto(t, rest)
    ensures SplitsInto("\n" + t, [[]] + rest)
  {
    var parts := [[]] + rest;
    forall i | 0 <= i < |parts|
      ensures '\n' !in parts[i]
    {
      if i > 0 {
        assert parts[i] == rest[i - 1];
      }
    }
    assert parts[..|parts| - 1] == [[]] + rest[..|rest| - 1];
    assert Terminated(parts[..|parts| - 1]) == "\n" + Terminated(rest[..|rest| - 1]);
  }

  /** Any other character in front of the text joins the first piece. */
  lemma SplitAtOther(c: char, t: string, rest: seq<string>)
    requires c != '\n'
    requires |rest| >= 1 && SplitsInto(t, rest)
    ensures SplitsInto([c] + t, [[c] + rest[0]] + rest[1..])
  {
    var parts := [[c] + rest[0]] + rest[1..];
    forall i | 0 <= i < |parts|
      ensures '\n' !in parts[i]
    {
      if i > 0 {
        assert parts[i] == rest[i];
      }
    }
    if |rest| == 1 {
      assert parts[..|parts| - 1] == [] && rest[..|rest| - 1] == [];
    } else {
      assert parts[..|parts| - 1] == [[c] + rest[0]] + rest[1..|rest| - 1];
      assert rest[..|rest| - 1] == [rest[0]] + rest[1..|rest| - 1];
      assert Terminated(rest[..|rest| - 1])
          == rest[0] + "\n" + Terminated(rest[1..|rest| - 1]);
    }
  }

  /** The '\n'-terminated lines of `s` (`split` followed by `pop`). */
  function CompleteLines(s: string): seq<string>
  {
    var parts := Split(s); parts[..|parts| - 1]
  }

  /** The unterminated tail of `s` (what `pop` returns). */
  function Fragment(s: string): string
  {
    var parts := Split(s); parts[|parts| - 1]
  }

  lemma {:induction false} NewlineInTerminated(lines: seq<string>, f: string)
    requires lines != []
    requires '\n' !in lines[0]
    ensures |lines[0]| < |Terminated(lines) + f|
    ensures (Terminated(lines) + f)[|lines[0]|] == '\n'
    ensures (Terminated(lines) + f)[..|lines[0]|] == lines[0]
    ensures (Terminated(lines) + f)[|lines[0]| + 1..] == Terminated(lines[1..]) + f
  {
    assert Terminated(lines) + f == lines[0] + "\n" + (Terminated(lines[1..]) + f);
  }

  /** A string determines its terminated lines and its fragment uniquely. */
  lemma {:induction false} TerminatedUnique(l1: seq<string>, f1: string, l2: seq<string>, f2: string)
    requires AllNoNewline(l1) && AllNoNewline(l2)
    requires '\n' !in f1 && '\n' !in f2
    requires Terminated(l1) + f1 == Terminated(l2) + f2
    ensures l1 == l2 && f1 == f2
  {
    var s := Terminated(l1) + f1;
    if l1 == [] && l2 == [] {
      assert Terminated(l1) == [] && Terminated(l2) == [];
      assert f1 == Terminated(l1) + f1 == Terminated(l2) + f2 == f2;
    } else if l1 == [] {
      NewlineInTerminated(l2, f2);
      assert false;
    } else if l2 == [] {
      NewlineInTerminated(l1, f1);
      assert false;
    } else {
      NewlineInTerminated(l1, f1);
      NewlineInTerminated(l2, f2);
      var a, b := l1[0], l2[0];
      if |a| < |b| {
        assert false;
      } else if |b| < |a| {
        assert false;
      }
      assert a == b;
      TerminatedUnique(l1[1..], f1, l2[1..], f2);
      assert l1 == [a] + l1[1..] && l2 == [b] + l2[1..];
    }
  }

  /** Splitting `Terminated(lines) + f` gives back `lines` and `f`. */
  lemma SplitTerminated(lines: seq<string>, f: string)
    requires AllNoNewline(lines) && '\n' !in f
    ensures CompleteLines(Terminated(lines) + f) == lines
    ensures Fragment(Terminated(lines) + f) == f
  {
    var s := Terminated(lines) + f;
    var parts := Split(s);
    SplitSpec(s);
    assert AllNoNewline(parts[..|parts| - 1]);
    TerminatedUnique(parts[..|parts| - 1], parts[|parts| - 1], lines, f);
  }
}
