/** Extraction of the bearer token from the `authorization` header:
    `authHeader && authHeader.split(' ')[1]`. */
module Header {
  import opened Values

  /** JavaScript's `s.split(sep)` for a one-character separator: the pieces
      between separators, including empty ones. */
  function Split(s: string, sep: char): (parts: seq<string>)
    ensures |parts| >= 1
    ensures forall i :: 0 <= i < |parts| ==> sep !in parts[i]
  {
    if s == [] then [""]
    else
      var rest := Split(s[1..], sep);
      if s[0] == sep then [""] + rest
      else [[s[0]] + rest[0]] + rest[1..]
  }

  /** JavaScript's `parts.join(sep)`, the inverse of `Split`. */
  function Join(parts: seq<string>, sep: char): string
    requires |parts| >= 1
  {
    if |parts| == 1 then parts[0] else parts[0] + [sep] + Join(parts[1..], sep)
  }

  /** Joining the pieces of a split gives back the original string. */
  lemma {:induction false} JoinSplit(s: string, sep: char)
    ensures Join(Split(s, sep), sep) == s
  {
    if s != [] {
      var rest := Split(s[1..], sep);
      JoinSplit(s[1..], sep);
      if s[0] == sep {
        assert ([""] + rest)[1..] == rest;
      } else if |rest| > 1 {
        assert Join(rest, sep) == rest[0] + [sep] + Join(rest[1..], sep);
        assert ([[s[0]] + rest[0]] + rest[1..])[1..] == rest[1..];
      }
    }
  }

  /** A leading piece without separators splits off as one piece. */
  lemma {:induction false} SplitPrefix(w: string, sep: char, x: string)
    requires sep !in w
    ensures Split(w + [sep] + x, sep) == [w] + Split(x, sep)
  {
    var s := w + [sep] + x;
    if w == [] {
      assert s[1..] == x;
    } else {
      assert s[1..] == w[1..] + [sep] + x;
      SplitPrefix(w[1..], sep, x);
      assert [w[0]] + w[1..] == w;
    }
  }

  /** A string without separators is a single piece. */
  lemma {:induction false} SplitNoSeparator(w: string, sep: char)
    requires sep !in w
    ensures Split(w, sep) == [w]
  {
    if w != [] {
      SplitNoSeparator(w[1..], sep);
      assert [w[0]] + w[1..] == w;
    }
  }

  /** Splitting a join of separator-free pieces gives back the pieces. */
  lemma {:induction false} SplitJoin(parts: seq<string>, sep: char)
    requires |parts| >= 1
    requires forall i :: 0 <= i < |parts| ==> sep !in parts[i]
    ensures Split(Join(parts, sep), sep) == parts
  {
    if |parts| == 1 {
      SplitNoSeparator(parts[0], sep);
    } else {
      SplitJoin(parts[1..], sep);
      SplitPrefix(parts[0], sep, Join(parts[1..], sep));
    }
  }

  /** The token is the second space-separated piece of the header, when the
      header is present and that piece exists and is not empty. */
  function ExtractToken(header: Option<string>): (token: Option<string>)
    ensures token.Some? ==> header.Some? && token.value != "" && ' ' !in token.value
  {
    match header
    case None => None
    case Some(h) =>
      var parts := Split(h, ' ');
      if |parts| >= 2 && parts[1] != "" then Some(parts[1]) else None
  }

  /** Whatever the first word is, the word after the first space is the token;
      an empty second word (two spaces in a row) yields no token. */
  lemma SecondWordIsToken(first: string, token: string, rest: string)
    requires ' ' !in first && ' ' !in token
    requires rest == [] || rest[0] == ' '
    ensures ExtractToken(Some(first + " " + token + rest)) == if token == "" then None else Some(token)
  {
    var h := first + " " + token + rest;
    assert h == first + [' '] + (token + rest);
    SplitPrefix(first, ' ', token + rest);
    if rest == [] {
      assert token + rest == token;
      SplitNoSeparator(token, ' ');
    } else {
      assert token + rest == token + [' '] + rest[1..];
      SplitPrefix(token, ' ', rest[1..]);
    }
  }

  /** A header without any space carries no token. */
  lemma NoSpaceNoToken(h: string)
    requires ' ' !in h
    ensures ExtractToken(Some(h)) == None
  {
    SplitNoSeparator(h, ' ');
  }

  /** Conversely, an extracted token is always the word after the header's
      first space, followed by the end of the header or another space. */
  lemma TokenIsSecondWord(h: string, token: string) returns (first: string, rest: string)
    requires ExtractToken(Some(h)) == Some(token)
    ensures ' ' !in first && ' ' !in token && token != ""
    ensures h == first + " " + token + rest
    ensures rest == [] || rest[0] == ' '
  {
    var parts := Split(h, ' ');
    JoinSplit(h, ' ');
    first := parts[0];
    if |parts| == 2 {
      rest := "";
    } else {
      rest := " " + Join(parts[2..], ' ');
      assert parts[1..][1..] == parts[2..];
    }
  }
}
