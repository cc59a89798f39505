/**
 Splitting a line at single spaces, keeping empty tokens: as Python's split does on a value, and as
 the firmware does in place by overwriting each space with NUL.
 */
module Tokens {

  /** The tokens once one more character of the line is known. */
  function Grow(tokens: seq<string>, c: char): (grown: seq<string>)
    requires |tokens| >= 1
    ensures |grown| >= |tokens|
  {
    if c == ' ' then tokens + [""]
    else tokens[|tokens| - 1 := tokens[|tokens| - 1] + [c]]
  }

  function Split(line: string): (tokens: seq<string>)
    ensures |tokens| >= 1
  {
    if line == "" then [""] else Grow(Split(line[..|line| - 1]), line[|line| - 1])
  }

  function Join(tokens: seq<string>): string
    requires |tokens| >= 1
  {
    if |tokens| == 1 then tokens[0]
    else Join(tokens[..|tokens| - 1]) + " " + tokens[|tokens| - 1]
  }

  predicate NoSpace(token: string) {
    forall i :: 0 <= i < |token| ==> token[i] != ' '
  }

  predicate AllNoSpace(tokens: seq<string>) {
    forall i :: 0 <= i < |tokens| ==> NoSpace(tokens[i])
  }

  lemma SplitSnoc(line: string, c: char)
    ensures Split(line + [c]) == Grow(Split(line), c)
  {
    assert (line + [c])[..|line|] == line;
  }

  lemma WordSnoc(front: string, word: string)
    requires word != ""
    ensures front + word[..|word| - 1] + [word[|word| - 1]] == front + word
  {
  }

  /** Appending a word lengthens the last token by that word. */
  lemma {:induction false} SplitExtends(line: string, word: string)
    requires NoSpace(word)
    ensures var front := Split(line);
            Split(line + word) == front[|front| - 1 := front[|front| - 1] + word]
  {
    var front := Split(line);
    if word == "" {
      assert line + word == line && front[|front| - 1] + word == front[|front| - 1];
    } else {
      var start, c := word[..|word| - 1], word[|word| - 1];
      SplitExtends(line, start);
      SplitSnoc(line + start, c);
      WordSnoc(line, word);
      WordSnoc(front[|front| - 1], word);
    }
  }

  /** Splitting undoes joining. */
  lemma {:induction false} SplitOfJoin(tokens: seq<string>)
    requires |tokens| >= 1 && AllNoSpace(tokens)
    ensures Split(Join(tokens)) == tokens
  {
    var k := |tokens| - 1;
    var word := tokens[k];
    assert "" + word == word && tokens == tokens[..k] + [word];
    if k == 0 {
      SplitExtends("", word);
    } else {
      var head := Join(tokens[..k]);
      SplitOfJoin(tokens[..k]);
      SplitSnoc(head, ' ');
      SplitExtends(head + " ", word);
      assert (tokens[..k] + [""])[..k] == tokens[..k];
    }
  }

  lemma JoinSnoc(tokens: seq<string>, word: string)
    requires |tokens| >= 1
    ensures Join(tokens + [word]) == Join(tokens) + " " + word
  {
    assert (tokens + [word])[..|tokens|] == tokens;
  }

  lemma JoinLast(front: seq<string>, word: string, c: char)
    ensures Join(front + [word + [c]]) == Join(front + [word]) + [c]
  {
    if front != [] {
      var head := Join(front) + " ";
      JoinSnoc(front, word);
      JoinSnoc(front, word + [c]);
      assert head + (word + [c]) == head + word + [c];
    }
  }

  lemma JoinGrow(tokens: seq<string>, c: char)
    requires |tokens| >= 1
    ensures Join(Grow(tokens, c)) == Join(tokens) + [c]
  {
    if c == ' ' {
      var joined := Join(tokens);
      JoinSnoc(tokens, "");
      assert joined + " " + "" == joined + [c];
    } else {
      var front, word := tokens[..|tokens| - 1], tokens[|tokens| - 1];
      JoinLast(front, word, c);
      assert tokens == front + [word];
      assert Grow(tokens, c) == front + [word + [c]];
    }
  }

  /** Joining undoes splitting. */
  lemma {:induction false} JoinOfSplit(line: string)
    ensures Join(Split(line)) == line
  {
    if line != "" {
      var front, c := line[..|line| - 1], line[|line| - 1];
      JoinOfSplit(front);
      JoinGrow(Split(front), c);
      assert line == front + [c];
    }
  }

  lemma {:induction false} SplitHasNoSpace(line: string)
    ensures AllNoSpace(Split(line))
  {
    if line != "" {
      SplitHasNoSpace(line[..|line| - 1]);
    }
  }

  /** The tokens closed by a space do not depend on what follows it. */
  lemma {:induction false} SplitOfPrefix(line: string, k: nat)
    requires k < |line| && line[k] == ' '
    ensures var head := Split(line[..k]);
            |head| < |Split(line)| && head == Split(line)[..|head|]
  {
    var front, c := line[..|line| - 1], line[|line| - 1];
    if k < |front| {
      SplitOfPrefix(front, k);
      assert front[..k] == line[..k];
    }
    assert Split(line) == Grow(Split(front), c);
  }

  const MAX_TOKENS := 5
  const NUL := '\0'

  /** Buffer `a` holds the NUL-terminated text `s` from offset `start`. */
  predicate CStringAt(a: seq<char>, start: nat, s: string) {
    && start + |s| < |a|
    && a[start + |s|] == NUL
    && forall j :: 0 <= j < |s| ==> s[j] != NUL && a[start + j] == s[j]
  }

  ghost predicate TokensAt(a: seq<char>, starts: seq<nat>, tokens: seq<string>) {
    && |starts| <= |tokens|
    && forall i :: 0 <= i < |starts| ==> CStringAt(a, starts[i], tokens[i])
  }

  /**
   After the first `k` characters of `text`: tokens before the last are terminated below `k`, and
   the last one runs up to `k`, still open. The rest of the buffer still holds `text`.
   */
  ghost predicate Progress(a: seq<char>, starts: seq<nat>, text: string, k: nat)
    requires k <= |text|
  {
    var tokens := Split(text[..k]);
    && k < |a|
    && CStringAt(a[k..], 0, text[k..])
    && |starts| == |tokens|
    && (forall i :: 0 <= i < |starts| - 1 ==>
          starts[i] + |tokens[i]| < k && CStringAt(a, starts[i], tokens[i]))
    && var start, last := starts[|starts| - 1], tokens[|tokens| - 1];
       && start + |last| == k
       && forall j :: 0 <= j < |last| ==> last[j] != NUL && a[start + j] == last[j]
  }

  lemma ProgressClosed(a: seq<char>, starts: seq<nat>, text: string, k: nat)
    requires k <= |text| && Progress(a, starts, text, k)
    ensures TokensAt(a[k := NUL], starts, Split(text[..k]))
  {
  }

  lemma ProgressStart(a: seq<char>, text: string)
    requires CStringAt(a, 0, text)
    ensures Progress(a, [0], text, 0) && Split(text[..0]) == [""]
  {
    assert a[0..] == a && text[0..] == text;
  }

  lemma ProgressDone(a: seq<char>, starts: seq<nat>, text: string, k: nat)
    requires k <= |text| && Progress(a, starts, text, k) && a[k] == NUL
    ensures k == |text| && TokensAt(a, starts, Split(text)) && |starts| == |Split(text)|
  {
    ProgressCursor(a, starts, text, k);
    assert text[..k] == text;
    ProgressClosed(a, starts, text, k);
    assert a[k := NUL] == a;
  }

  lemma ProgressSpace(a: seq<char>, starts: seq<nat>, text: string, k: nat)
    requires k < |text| && Progress(a, starts, text, k) && text[k] == ' '
    ensures Progress(a[k := NUL], starts + [k + 1], text, k + 1)
    ensures |starts| < |Split(text)| && TokensAt(a[k := NUL], starts, Split(text))
    ensures |Split(text[..k + 1])| == |starts| + 1
  {
    ProgressClosed(a, starts, text, k);
    SplitOfPrefix(text, k);
    assert text[..k + 1][..k] == text[..k];
    assert CStringAt(a[k + 1..], 0, text[k + 1..]) by {
      assert text[k + 1..] == text[k..][1..] && a[k + 1..] == a[k..][1..];
    }
    assert a[k := NUL][k + 1..] == a[k + 1..];
  }

  lemma ProgressOther(a: seq<char>, starts: seq<nat>, text: string, k: nat)
    requires k < |text| && Progress(a, starts, text, k) && text[k] != ' '
    ensures Progress(a, starts, text, k + 1) && |Split(text[..k + 1])| == |starts|
  {
    var tokens := Split(text[..k]);
    var last := tokens[|tokens| - 1];
    assert text[..k + 1][..k] == text[..k];
    assert Split(text[..k + 1]) == Grow(tokens, text[k]);
    assert CStringAt(a[k + 1..], 0, text[k + 1..]) by {
      assert text[k + 1..] == text[k..][1..] && a[k + 1..] == a[k..][1..];
    }
    assert a[k] == a[k..][0] == text[k..][0] == text[k] != NUL;
  }

  lemma ProgressCursor(a: seq<char>, starts: seq<nat>, text: string, k: nat)
    requires k <= |text| && Progress(a, starts, text, k)
    ensures |text| < |a| && (a[k] == NUL <==> k == |text|)
    ensures k < |text| ==> a[k] == text[k]
  {
    assert a[k] == a[k..][0];
    if k < |text| {
      assert a[k..][0] == text[k..][0];
    }
  }

  /** Split `line`, which holds `text` and its NUL, in place and return the offset of each token. */
  method TokenizePreservingEmpty(line: array<char>, ghost text: string) returns (starts: seq<nat>)
    requires CStringAt(line[..], 0, text)
    modifies line
    ensures |starts| == if |Split(text)| < MAX_TOKENS then |Split(text)| else MAX_TOKENS
    ensures TokensAt(line[..], starts, Split(text))
  {
    starts := [0];
    var cursor := 0;
    ghost var buffer := line[..];
    ProgressStart(buffer, text);
    while line[cursor] != NUL
      invariant 0 <= cursor <= |text| < line.Length && line[..] == buffer
      invariant Progress(buffer, starts, text, cursor)
      invariant |starts| == |Split(text[..cursor])| <= MAX_TOKENS
      decreases |text| - cursor
    {
      ProgressCursor(buffer, starts, text, cursor);
      if line[cursor] == ' ' {
        ProgressSpace(buffer, starts, text, cursor);
        line[cursor] := NUL;
        buffer := buffer[cursor := NUL];
        if |starts| >= MAX_TOKENS {
          return;
        }
        starts := starts + [cursor + 1];
      } else {
        ProgressOther(buffer, starts, text, cursor);
      }
      cursor := cursor + 1;
    }
    ProgressDone(buffer, starts, text, cursor);
  }

  /** Read the NUL-terminated text at an offset. */
  method Load(line: array<char>, start: nat, ghost text: string) returns (s: string)
    requires CStringAt(line[..], start, text)
    ensures s == text
  {
    s := "";
    while line[start + |s|] != NUL
      invariant |s| <= |text| && s == text[..|s|]
      invariant if |s| == |text| then line[start + |s|] == NUL else line[start + |s|] == text[|s|] != NUL
      decreases |text| - |s|
    {
      s := s + [line[start + |s|]];
    }
  }
}
