/**
 * Values shared by the two stages of the streaming reformatter: optional
 * fragments, concatenation of a fragment sequence, and the column a printed
 * string leaves the terminal cursor in.
 */
module Text {

  /** A fragment of the upstream stream that may carry no text (`None`). */
  datatype Option<+T> = None | Some(value: T)

  /** The text the fragments spell when printed one after another. */
  function Concat(pieces: seq<string>): (s: string)
  {
    if pieces == [] then [] else pieces[0] + Concat(pieces[1..])
  }

  lemma {:induction false} ConcatAppend(a: seq<string>, b: seq<string>)
    ensures Concat(a + b) == Concat(a) + Concat(b)
  {
    if a == [] {
      assert a + b == b;
    } else {
      assert (a + b)[1..] == a[1..] + b;
      ConcatAppend(a[1..], b);
    }
  }

  /** One or two pieces print as themselves, one after the other. */
  lemma ConcatPair(a: string, b: string)
    ensures Concat([a]) == a && Concat([a, b]) == a + b
  {
    assert [a, b][1..] == [b];
    assert [a][1..] == [] && [b][1..] == [];
    assert Concat([]) == [];
  }

  /** The fragments that are present, in order: the `None` entries dropped. */
  function Present(chunks: seq<Option<string>>): (r: seq<string>)
  {
    if chunks == [] then []
    else
      match chunks[0]
      case None => Present(chunks[1..])
      case Some(s) => [s] + Present(chunks[1..])
  }

  /** A fragment is kept exactly when it is present: only the `None` entries go. */
  lemma {:induction false} PresentMembers(chunks: seq<Option<string>>)
    ensures forall s :: s in Present(chunks) <==> Some(s) in chunks
  {
    if chunks != [] {
      PresentMembers(chunks[1..]);
      assert chunks == [chunks[0]] + chunks[1..];
    }
  }

  /** Number of characters printed after the last newline of `s`. */
  function Column(s: string): (c: nat)
    ensures c <= |s|
  {
    if s == [] then 0
    else if s[|s| - 1] == '\n' then 0
    else Column(s[..|s| - 1]) + 1
  }

  /** The column counts exactly the characters after the last newline. */
  lemma {:induction false} ColumnIsLastLine(s: string)
    ensures Column(s) < |s| ==> s[|s| - 1 - Column(s)] == '\n'
    ensures forall i :: |s| - Column(s) <= i < |s| ==> s[i] != '\n'
    decreases |s|
  {
    if s != [] && s[|s| - 1] != '\n' {
      var init := s[..|s| - 1];
      ColumnIsLastLine(init);
      assert forall i :: 0 <= i < |init| ==> s[i] == init[i];
    }
  }

  lemma {:induction false} ColumnAppend(a: string, b: string)
    ensures '\n' !in b ==> Column(a + b) == Column(a) + |b|
    ensures '\n' in b ==> Column(a + b) == Column(b)
    decreases |b|
  {
    if b == [] {
      assert a + b == a;
    } else {
      var b' := b[..|b| - 1];
      assert (a + b)[..|a + b| - 1] == a + b';
      ColumnAppend(a, b');
      if b[|b| - 1] != '\n' {
        assert '\n' in b' <==> '\n' in b;
      }
    }
  }

  /** After a line break, a word with no newline in it is the whole current line. */
  lemma LastLineIsWord(a: string, w: string)
    requires Column(a) == 0 && '\n' !in w
    ensures Column(a + w) == |w| && (a + w)[|a + w| - |w|..] == w
  {
    ColumnAppend(a, w);
    assert (a + w)[|a|..] == w;
  }
}
