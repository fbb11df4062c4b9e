/**
 * The whitespace splitter of base/ai.py (`extract_whitespace`): it re-cuts a
 * stream of optional text fragments so that every space and every newline is
 * a token of its own and every maximal run of other characters inside one
 * fragment is one token.
 */
module WhitespaceSplitter {
  import opened Text

  /** The delimiter pattern `[ \n]`: a space or a newline, nothing else (tabs are content). */
  predicate IsDelimiter(c: char) {
    c == ' ' || c == '\n'
  }

  /** A non-empty run of characters with no delimiter in it. */
  predicate IsWord(t: string) {
    |t| > 0 && forall i :: 0 <= i < |t| ==> !IsDelimiter(t[i])
  }

  /** The shape of every token the splitter yields. */
  predicate IsToken(t: string) {
    t == " " || t == "\n" || IsWord(t)
  }

  /** No two word tokens stand side by side: every run is maximal. */
  predicate MaximalRuns(tokens: seq<string>) {
    forall i :: 0 <= i < |tokens| - 1 ==> !(IsWord(tokens[i]) && IsWord(tokens[i + 1]))
  }

  /** The first match of the delimiter pattern in `s`, as the regex search reports it. */
  function FindDelimiter(s: string): (r: Option<nat>)
    ensures r.Some? ==> r.value < |s| && IsDelimiter(s[r.value])
    ensures r.Some? ==> forall j :: 0 <= j < r.value ==> !IsDelimiter(s[j])
    ensures r.None? ==> forall j :: 0 <= j < |s| ==> !IsDelimiter(s[j])
  {
    if s == [] then None
    else if IsDelimiter(s[0]) then Some(0)
    else
      match FindDelimiter(s[1..])
      case None => None
      case Some(k) => Some(k + 1)
  }

  /** The tokens one fragment is cut into: the loop of base/ai.py:32-41 as a function. */
  function SplitFragment(s: string): (tokens: seq<string>)
    decreases |s|
  {
    if s == [] then []
    else
      match FindDelimiter(s)
      case None => [s]
      case Some(idx) =>
        (if idx > 0 then [s[..idx]] else []) + [s[idx..idx + 1]] + SplitFragment(s[idx + 1..])
  }

  /** The whole token stream: each present fragment split on its own, in order. */
  function Split(chunks: seq<Option<string>>): (tokens: seq<string>)
  {
    if chunks == [] then []
    else
      (match chunks[0]
       case None => []
       case Some(s) => SplitFragment(s)) + Split(chunks[1..])
  }

  /** Tokens never straddle two fragments: splitting distributes over the fragment sequence. */
  lemma {:induction false} SplitAppend(a: seq<Option<string>>, b: seq<Option<string>>)
    ensures Split(a + b) == Split(a) + Split(b)
  {
    if a != [] {
      assert (a + b)[1..] == a[1..] + b;
      SplitAppend(a[1..], b);
    } else {
      assert a + b == b;
    }
  }

  /** Splitting one more fragment of a stream appends that fragment's own tokens. */
  lemma SplitPrefix(chunks: seq<Option<string>>, k: nat)
    requires k < |chunks|
    ensures Split(chunks[..k + 1]) == Split(chunks[..k]) + (match chunks[k] case None => [] case Some(s) => SplitFragment(s))
  {
    assert Split([chunks[k]]) == (match chunks[k] case None => [] case Some(s) => SplitFragment(s)) by {
      assert [chunks[k]][1..] == [];
    }
    SplitAppend(chunks[..k], [chunks[k]]);
    assert chunks[..k + 1] == chunks[..k] + [chunks[k]];
  }

  /** Absent and empty fragments yield nothing, and neighbouring fragments are never merged. */
  lemma SplitKeepsFragmentsApart()
    ensures Split([None]) == [] && Split([Some("")]) == []
    ensures Split([Some("foo"), None, Some("bar")]) == ["foo", "bar"]
  {
    var absent: seq<Option<string>> := [None];
    assert absent[1..] == [] && [Some("")][1..] == [];
    FindNoDelimiter("foo");
    FindNoDelimiter("bar");
    SplitPrefix([Some("foo"), None, Some("bar")], 0);
    SplitPrefix([Some("foo"), None, Some("bar")], 1);
    SplitPrefix([Some("foo"), None, Some("bar")], 2);
    assert [Some("foo"), None, Some("bar")][..3] == [Some("foo"), None, Some("bar")];
  }

  /** One turn of the splitting loop: the run before the first delimiter, the delimiter, then the rest. */
  lemma SplitFragmentAt(s: string, idx: nat)
    requires FindDelimiter(s) == Some(idx)
    ensures SplitFragment(s) == (if idx > 0 then [s[..idx]] else []) + ([s[idx..idx + 1]] + SplitFragment(s[idx + 1..]))
  {
  }

  /** What one turn of the loop yields, followed by the split of the rest, is the split of `s`. */
  lemma YieldedAt(before: seq<string>, s: string, idx: nat, after: seq<string>)
    requires FindDelimiter(s) == Some(idx)
    requires after == (if idx > 0 then before + [s[..idx]] else before) + [s[idx..idx + 1]]
    ensures after + SplitFragment(s[idx + 1..]) == before + SplitFragment(s)
  {
    var delimiter, rest := [s[idx..idx + 1]], SplitFragment(s[idx + 1..]);
    var run: seq<string> := if idx > 0 then [s[..idx]] else [];
    assert after + rest == before + (run + (delimiter + rest)) by {
      assert after == before + run + delimiter;
    }
    SplitFragmentAt(s, idx);
  }

  lemma {:induction false} SplitFragmentLossless(s: string)
    ensures Concat(SplitFragment(s)) == s
    decreases |s|
  {
    if s != [] {
      match FindDelimiter(s)
      case None =>
      case Some(idx) =>
        var head := if idx > 0 then [s[..idx]] else [];
        var tail := [s[idx..idx + 1]] + SplitFragment(s[idx + 1..]);
        SplitFragmentAt(s, idx);
        assert Concat(tail) == s[idx..] by {
          SplitFragmentLossless(s[idx + 1..]);
          assert tail[1..] == SplitFragment(s[idx + 1..]);
          assert s[idx..] == s[idx..idx + 1] + s[idx + 1..];
        }
        assert Concat(head) == s[..idx] by {
          if idx > 0 {
            assert head[1..] == [];
          }
        }
        ConcatAppend(head, tail);
        assert s == s[..idx] + s[idx..];
    }
  }

  lemma {:induction false} SplitFragmentShape(s: string)
    ensures forall t :: t in SplitFragment(s) ==> IsToken(t)
    ensures MaximalRuns(SplitFragment(s))
    decreases |s|
  {
    if s != [] {
      match FindDelimiter(s)
      case None =>
      case Some(idx) =>
        var rest := SplitFragment(s[idx + 1..]);
        SplitFragmentShape(s[idx + 1..]);
        var d := s[idx..idx + 1];
        assert d == " " || d == "\n";
        assert !IsWord(d) by {
          assert IsDelimiter(d[0]);
        }
        if idx > 0 {
          assert IsWord(s[..idx]);
          var r := [s[..idx]] + [d] + rest;
          assert r == SplitFragment(s);
          forall i | 0 <= i < |r| - 1
            ensures !(IsWord(r[i]) && IsWord(r[i + 1]))
          {
            if i >= 2 {
              assert r[i] == rest[i - 2] && r[i + 1] == rest[i - 1];
            }
          }
        } else {
          var r := [d] + rest;
          assert r == SplitFragment(s);
          forall i | 0 <= i < |r| - 1
            ensures !(IsWord(r[i]) && IsWord(r[i + 1]))
          {
            if i >= 1 {
              assert r[i] == rest[i - 1] && r[i + 1] == rest[i];
            }
          }
        }
    }
  }

  /**
   * The cut is the only one possible: any sequence of well-shaped tokens with
   * maximal runs that spells `s` is exactly what the splitter yields for `s`.
   */
  lemma {:induction false} SplitFragmentUnique(s: string, tokens: seq<string>)
    requires Concat(tokens) == s
    requires forall t :: t in tokens ==> IsToken(t)
    requires MaximalRuns(tokens)
    ensures tokens == SplitFragment(s)
    decreases |tokens|
  {
    if tokens == [] {
      return;
    }
    var t := tokens[0];
    assert IsToken(t);
    if t == " " || t == "\n" {
      RestKeepsShape(tokens, 1);
      SplitFragmentUnique(Concat(tokens[1..]), tokens[1..]);
      DelimiterLeads(tokens);
    } else if |tokens| == 1 {
      assert s == t by {
        assert tokens[1..] == [];
      }
      FindNoDelimiter(s);
    } else {
      RestKeepsShape(tokens, 2);
      SplitFragmentUnique(Concat(tokens[2..]), tokens[2..]);
      WordLeads(tokens);
    }
  }

  /** Uniqueness, the case of a leading delimiter token. */
  lemma DelimiterLeads(tokens: seq<string>)
    requires |tokens| > 0 && (tokens[0] == " " || tokens[0] == "\n")
    requires tokens[1..] == SplitFragment(Concat(tokens[1..]))
    ensures tokens == SplitFragment(Concat(tokens))
  {
    var s := Concat(tokens);
    var t := tokens[0];
    assert s == t + Concat(tokens[1..]);
    FindFirstDelimiter(s, 0);
    SplitFragmentAt(s, 0);
    assert s[1..] == Concat(tokens[1..]) && s[0..1] == t;
    assert tokens == [t] + tokens[1..];
  }

  /** Uniqueness, the case of a leading word: a delimiter token must follow it. */
  lemma WordLeads(tokens: seq<string>)
    requires |tokens| > 1 && IsWord(tokens[0]) && IsToken(tokens[1]) && !IsWord(tokens[1])
    requires tokens[2..] == SplitFragment(Concat(tokens[2..]))
    ensures tokens == SplitFragment(Concat(tokens))
  {
    var s := Concat(tokens);
    var t, d, tail := tokens[0], tokens[1], Concat(tokens[2..]);
    assert d == " " || d == "\n";
    assert s == t + (d + tail) by {
      assert Concat(tokens) == t + Concat(tokens[1..]);
      assert tokens[1..][0] == d && tokens[1..][1..] == tokens[2..];
      assert Concat(tokens[1..]) == d + tail;
    }
    var idx := |t|;
    assert FindDelimiter(s) == Some(idx) by {
      assert s[idx] == d[0];
      assert forall j :: 0 <= j < idx ==> s[j] == t[j];
      FindFirstDelimiter(s, idx);
    }
    assert SplitFragment(s) == [t] + ([d] + tokens[2..]) by {
      SplitFragmentAt(s, idx);
      assert s[..idx] == t && s[idx..idx + 1] == d && s[idx + 1..] == tail;
    }
    assert tokens == [t] + ([d] + tokens[2..]);
  }

  /** The search reports the first delimiter, whichever it is. */
  lemma FindFirstDelimiter(s: string, idx: nat)
    requires idx < |s| && IsDelimiter(s[idx])
    requires forall j :: 0 <= j < idx ==> !IsDelimiter(s[j])
    ensures FindDelimiter(s) == Some(idx)
  {
  }

  /** The search finds nothing in a delimiter-free string. */
  lemma FindNoDelimiter(s: string)
    requires forall j :: 0 <= j < |s| ==> !IsDelimiter(s[j])
    ensures FindDelimiter(s) == None
  {
  }

  /** A stream of one fragment has maximal runs: no two words ever meet. */
  lemma SingleFragmentRuns(s: string)
    ensures MaximalRuns(Split([Some(s)]))
  {
    var single := [Some(s)];
    assert single[1..] == [];
    assert Split(single) == SplitFragment(s) + Split([]);
    assert Split(single) == SplitFragment(s);
    SplitFragmentShape(s);
  }

  /** Dropping a prefix keeps the token shape, the maximal runs and the spelling of the rest. */
  lemma RestKeepsShape(tokens: seq<string>, k: nat)
    requires k <= |tokens|
    requires forall t :: t in tokens ==> IsToken(t)
    requires MaximalRuns(tokens)
    ensures forall t :: t in tokens[k..] ==> IsToken(t)
    ensures MaximalRuns(tokens[k..])
  {
    forall i | 0 <= i < |tokens[k..]| - 1
      ensures !(IsWord(tokens[k..][i]) && IsWord(tokens[k..][i + 1]))
    {
      assert tokens[k..][i] == tokens[k + i] && tokens[k..][i + 1] == tokens[k + i + 1];
    }
  }

  /** Splitting is lossless: the tokens spell exactly the text of the present fragments. */
  lemma {:induction false} SplitLossless(chunks: seq<Option<string>>)
    ensures Concat(Split(chunks)) == Concat(Present(chunks))
  {
    if chunks != [] {
      SplitLossless(chunks[1..]);
      match chunks[0]
      case None =>
        assert Split(chunks) == Split(chunks[1..]);
        assert Present(chunks) == Present(chunks[1..]);
      case Some(s) =>
        SplitFragmentLossless(s);
        ConcatAppend(SplitFragment(s), Split(chunks[1..]));
        ConcatAppend([s], Present(chunks[1..]));
    }
  }

  /** Every token is a lone space, a lone newline or a delimiter-free non-empty run. */
  lemma {:induction false} SplitShape(chunks: seq<Option<string>>)
    ensures forall t :: t in Split(chunks) ==> IsToken(t)
  {
    if chunks != [] {
      SplitShape(chunks[1..]);
      match chunks[0]
      case None =>
      case Some(s) =>
        SplitFragmentShape(s);
    }
  }

  /**
   * The loop of base/ai.py:28-41: for each present fragment, repeatedly search
   * for the next delimiter, yield the run before it (when non-empty) and the
   * delimiter itself, and continue with the remainder; yield what is left when
   * no delimiter remains.
   */
  method ExtractWhitespace(chunks: seq<Option<string>>) returns (tokens: seq<string>)
    ensures tokens == Split(chunks)
    ensures Concat(tokens) == Concat(Present(chunks))
    ensures forall t :: t in tokens ==> IsToken(t)
  {
    tokens := [];
    for k := 0 to |chunks|
      invariant tokens == Split(chunks[..k])
    {
      match chunks[k] {
        case None =>
        case Some(fragment) =>
          var s := fragment;
          while |s| > 0
            invariant tokens + SplitFragment(s) == Split(chunks[..k]) + SplitFragment(fragment)
          {
            match FindDelimiter(s)
            case Some(idx) =>
              ghost var before := tokens;
              if idx > 0 {
                tokens := tokens + [s[..idx]];
              }
              tokens := tokens + [s[idx..idx + 1]];
              YieldedAt(before, s, idx, tokens);
              s := s[idx + 1..];
            case None =>
              tokens := tokens + [s];
              break;
          }
          assert tokens == Split(chunks[..k]) + SplitFragment(fragment);
      }
      SplitPrefix(chunks, k);
    }
    assert chunks[..|chunks|] == chunks;
    SplitLossless(chunks);
    SplitShape(chunks);
  }
}
