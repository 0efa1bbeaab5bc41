/**
 The fragments of Go's strings package that the modelled code relies on.
 */
module Strings {

  datatype Option<T> = None | Some(value: T)
  datatype Result<T> = Ok(value: T) | Err(error: string)

  /** strings.Split for a one-character separator: the pieces between separators. */
  function Split(s: string, sep: char): (pieces: seq<string>)
    ensures |pieces| >= 1
    ensures forall i :: 0 <= i < |pieces| ==> sep !in pieces[i] && |pieces[i]| <= |s|
    ensures sep in s ==> forall i :: 0 <= i < |pieces| ==> |pieces[i]| < |s|
    ensures sep !in s ==> pieces == [s]
  {
    if s == "" then [""]
    else
      assert s == [s[0]] + s[1..];
      var rest := Split(s[1..], sep);
      if s[0] == sep then [""] + rest
      else [[s[0]] + rest[0]] + rest[1..]
  }

  /** strings.Join. */
  function Join(pieces: seq<string>, sep: string): (s: string)
  {
    if pieces == [] then ""
    else if |pieces| == 1 then pieces[0]
    else pieces[0] + sep + Join(pieces[1..], sep)
  }

  lemma JoinFront(c: char, pieces: seq<string>, sep: string)
    requires pieces != []
    ensures Join([[c] + pieces[0]] + pieces[1..], sep) == [c] + Join(pieces, sep)
  {
    assert ([[c] + pieces[0]] + pieces[1..])[1..] == pieces[1..];
  }

  lemma JoinEmptyFront(pieces: seq<string>, sep: char)
    requires pieces != []
    ensures Join([""] + pieces, [sep]) == [sep] + Join(pieces, [sep])
  {
    assert ([""] + pieces)[1..] == pieces;
    assert "" + [sep] == [sep];
  }

  /** Splitting loses nothing: joining the pieces gives the text back. */
  lemma {:induction false} JoinSplit(s: string, sep: char)
    ensures Join(Split(s, sep), [sep]) == s
  {
    if s != "" {
      JoinSplit(s[1..], sep);
      JoinEmptyFront(Split(s[1..], sep), sep);
      JoinFront(s[0], Split(s[1..], sep), [sep]);
      assert s == [s[0]] + s[1..];
    }
  }

  lemma SplitStep(c: char, s: string, sep: char)
    ensures Split([c] + s, sep) == if c == sep then [""] + Split(s, sep)
      else [[c] + Split(s, sep)[0]] + Split(s, sep)[1..]
  {
    assert ([c] + s)[1..] == s;
  }

  /** The piece after the last separator, when the tail holds no separator. */
  lemma {:induction false} SplitLast(head: string, tail: string, sep: char)
    requires sep !in tail
    ensures var pieces := Split(head + [sep] + tail, sep); |pieces| >= 2 && pieces[|pieces| - 1] == tail
  {
    if head == "" {
      assert head + [sep] + tail == [sep] + tail;
      SplitStep(sep, tail, sep);
    } else {
      var rest := head[1..] + [sep] + tail;
      assert head + [sep] + tail == [head[0]] + rest;
      SplitStep(head[0], rest, sep);
      SplitLast(head[1..], tail, sep);
    }
  }

  /** A first piece without separators. */
  lemma {:induction false} SplitHead(head: string, tail: string, sep: char)
    requires sep !in head
    ensures Split(head + [sep] + tail, sep) == [head] + Split(tail, sep)
  {
    if head == "" {
      assert head + [sep] + tail == [sep] + tail;
      SplitStep(sep, tail, sep);
    } else {
      var rest := head[1..] + [sep] + tail;
      assert head + [sep] + tail == [head[0]] + rest;
      SplitStep(head[0], rest, sep);
      SplitHead(head[1..], tail, sep);
      assert [head[0]] + head[1..] == head;
    }
  }

  /** Two pieces without separators. */
  lemma SplitPair(head: string, tail: string, sep: char)
    requires sep !in head && sep !in tail
    ensures Split(head + [sep] + tail, sep) == [head, tail]
  {
    SplitHead(head, tail, sep);
  }

  lemma SplitThree(a: string, b: string, c: string, sep: char)
    requires sep !in a && sep !in b && sep !in c
    ensures Split(a + [sep] + (b + [sep] + c), sep) == [a, b, c]
  {
    SplitHead(a, b + [sep] + c, sep);
    SplitPair(b, c, sep);
  }

  lemma SplitFour(a: string, b: string, c: string, d: string, sep: char)
    requires sep !in a && sep !in b && sep !in c && sep !in d
    ensures Split(a + [sep] + (b + [sep] + (c + [sep] + d)), sep) == [a, b, c, d]
  {
    SplitHead(a, b + [sep] + (c + [sep] + d), sep);
    SplitThree(b, c, d, sep);
  }
}
