/** Path escaping (limpiarPath, src/scalaf.c:757-776): every space of a
    path is written as a backslash followed by the space, every other
    character is copied, so that the path survives a shell command line. */
module Path {
  /** The size of the C buffers `r_path` and `f_path`. */
  const BufferSize := 1024

  /** What one input character becomes. */
  function Piece(ch: char): seq<char> {
    if ch == ' ' then ['\\', ' '] else [ch]
  }

  /** The escaped path; it grows at the right as the loop of limpiarPath does. */
  function Escape(p: seq<char>): seq<char> {
    if |p| == 0 then [] else Escape(p[..|p| - 1]) + Piece(p[|p| - 1])
  }

  /** The number of spaces in p. */
  function Spaces(p: seq<char>): nat {
    if |p| == 0 then 0 else Spaces(p[..|p| - 1]) + (if p[|p| - 1] == ' ' then 1 else 0)
  }

  /** Drop the backslash in front of every space, reading from the right. */
  function Unescape(e: seq<char>): seq<char> {
    if |e| == 0 then []
    else if 2 <= |e| && e[|e| - 2] == '\\' && e[|e| - 1] == ' ' then Unescape(e[..|e| - 2]) + [' ']
    else Unescape(e[..|e| - 1]) + [e[|e| - 1]]
  }

  predicate NoNul(p: seq<char>) {
    forall k :: 0 <= k < |p| ==> p[k] != '\0'
  }

  /** Escaping a concatenation escapes each part. */
  lemma {:induction false} EscapeAppend(a: seq<char>, b: seq<char>)
    ensures Escape(a + b) == Escape(a) + Escape(b)
    decreases |b|
  {
    if |b| > 0 {
      var b' := b[..|b| - 1];
      assert (a + b)[..|a + b| - 1] == a + b';
      EscapeAppend(a, b');
    } else {
      assert a + b == a;
    }
  }

  /** The output is as long as the input plus one character per space. */
  lemma {:induction false} EscapeLength(p: seq<char>)
    ensures |Escape(p)| == |p| + Spaces(p)
    decreases |p|
  {
    if |p| > 0 {
      EscapeLength(p[..|p| - 1]);
    }
  }

  /** Every space of the output comes right after a backslash. */
  lemma {:induction false} EscapeGuardsSpaces(p: seq<char>)
    ensures forall k :: 0 <= k < |Escape(p)| && Escape(p)[k] == ' ' ==> 1 <= k && Escape(p)[k - 1] == '\\'
    decreases |p|
  {
    if |p| > 0 {
      var e := Escape(p[..|p| - 1]);
      EscapeGuardsSpaces(p[..|p| - 1]);
      var x := Escape(p);
      assert x == e + Piece(p[|p| - 1]);
      forall k | 0 <= k < |x| && x[k] == ' '
        ensures 1 <= k && x[k - 1] == '\\'
      {
        if k < |e| {
          assert x[k] == e[k] && x[k - 1] == e[k - 1];
        }
      }
    }
  }

  /** Unescaping undoes the last piece of any text. */
  lemma UnescapePiece(x: seq<char>, ch: char)
    ensures Unescape(x + Piece(ch)) == Unescape(x) + [ch]
  {
    var e := x + Piece(ch);
    if ch == ' ' {
      assert e[..|e| - 2] == x;
    } else {
      assert e[..|e| - 1] == x;
    }
  }

  /** A non-empty path is its front followed by its last character. */
  lemma Snoc(p: seq<char>)
    requires |p| > 0
    ensures p[..|p| - 1] + [p[|p| - 1]] == p
  {
  }

  /** Removing the inserted backslashes gives the path back. */
  lemma {:induction false} UnescapeEscape(p: seq<char>)
    ensures Unescape(Escape(p)) == p
    decreases |p|
  {
    if |p| > 0 {
      var q, ch := p[..|p| - 1], p[|p| - 1];
      UnescapeEscape(q);
      UnescapePiece(Escape(q), ch);
      Snoc(p);
    }
  }

  /** Different paths escape differently. */
  lemma EscapeInjective(p: seq<char>, q: seq<char>)
    requires Escape(p) == Escape(q)
    ensures p == q
  {
    UnescapeEscape(p);
    UnescapeEscape(q);
  }

  /** Escaping adds no terminator. */
  lemma {:induction false} EscapeNoNul(p: seq<char>)
    requires NoNul(p)
    ensures NoNul(Escape(p))
    decreases |p|
  {
    if |p| > 0 {
      assert NoNul(p[..|p| - 1]);
      EscapeNoNul(p[..|p| - 1]);
    }
  }

  /** The loop of limpiarPath extends the escaped prefix by one piece. */
  lemma EscapeStep(p: seq<char>, i: int)
    requires 0 <= i < |p|
    ensures Escape(p[..i + 1]) == Escape(p[..i]) + Piece(p[i])
    ensures |Escape(p[..i + 1])| <= |Escape(p)|
  {
    assert p[..i + 1][..i] == p[..i];
    EscapeAppend(p[..i + 1], p[i + 1..]);
    assert p[..i + 1] + p[i + 1..] == p;
  }

  /** limpiarPath. `path` is the C string of the first argument, without its
      terminator; `strcpy(r_path, path)` and `strlen` therefore give back
      `path` itself. The loop writes into `f_path`, which is then copied
      with `strcpy` into `spath`. Both 1024-character buffers must hold the
      result and its terminator. The C function is declared to return an
      `int` but returns nothing; the model returns nothing either. */
  method LimpiarPath(path: seq<char>, spath: array<char>)
    requires NoNul(path) && |path| < BufferSize
    requires |Escape(path)| < BufferSize && |Escape(path)| < spath.Length
    modifies spath
    ensures spath[..|Escape(path)|] == Escape(path)
    ensures spath[|Escape(path)|] == '\0'
    ensures spath[|Escape(path)| + 1..] == old(spath[|Escape(path)| + 1..])
  {
    var fpath := new char[BufferSize];
    var j := EscapeInto(path, fpath);
    EscapeNoNul(path);
    StrCopy(fpath, spath, j);
  }

  /** The body of the loop of limpiarPath: writes the piece of ch at index j. */
  method PutPiece(fpath: array<char>, j: int, ch: char) returns (next: int)
    requires 0 <= j && j + |Piece(ch)| <= fpath.Length
    modifies fpath
    ensures next == j + |Piece(ch)|
    ensures fpath[..next] == old(fpath[..j]) + Piece(ch)
    ensures forall k :: next <= k < fpath.Length ==> fpath[k] == old(fpath[k])
  {
    if ch == ' ' {
      fpath[j] := '\\';
      fpath[j + 1] := ' ';
      next := j + 2;
    } else {
      fpath[j] := ch;
      next := j + 1;
    }
  }

  /** The loop of limpiarPath: write the escaped path and its terminator
      into `f_path`; j counts the characters written. */
  method EscapeInto(path: seq<char>, fpath: array<char>) returns (j: int)
    requires |Escape(path)| < fpath.Length
    modifies fpath
    ensures j == |Escape(path)|
    ensures fpath[..j] == Escape(path) && fpath[j] == '\0'
    ensures forall k :: j < k < fpath.Length ==> fpath[k] == old(fpath[k])
  {
    var i := 0;
    j := 0;
    while i < |path|
      invariant 0 <= i <= |path|
      invariant j == |Escape(path[..i])| <= |Escape(path)|
      invariant fpath[..j] == Escape(path[..i])
      invariant forall k :: j <= k < fpath.Length ==> fpath[k] == old(fpath[k])
    {
      EscapeStep(path, i);
      j := PutPiece(fpath, j, path[i]);
      i := i + 1;
    }
    assert path[..i] == path;
    fpath[j] := '\0';
  }

  /** `strcpy(dst, src)` for a source whose terminator is at index n. */
  method StrCopy(src: array<char>, dst: array<char>, n: int)
    requires 0 <= n < src.Length && n < dst.Length && src != dst
    requires NoNul(src[..n]) && src[n] == '\0'
    modifies dst
    ensures dst[..n] == src[..n] && dst[n] == '\0'
    ensures dst[n + 1..] == old(dst[n + 1..])
  {
    var k := 0;
    while src[k] != '\0'
      invariant 0 <= k <= n
      invariant dst[..k] == src[..k]
      invariant dst[k..] == old(dst[k..])
      decreases n - k
    {
      assert src[..n][k] == src[k];
      dst[k] := src[k];
      k := k + 1;
    }
    dst[k] := '\0';
  }
}
