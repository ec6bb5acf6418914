/** String helpers: `split`, `join` and `trim`. */
module Text {
  predicate IsSpace(c: char) {
    c == ' ' || '\t' <= c <= '\r'
  }

  ghost function Split(s: string, sep: char): (pieces: seq<string>)
    ensures pieces != []
  {
    if s == "" then [""]
    else if s[0] == sep then [""] + Split(s[1..], sep)
    else
      var rest := Split(s[1..], sep);
      [[s[0]] + rest[0]] + rest[1..]
  }

  ghost function Join(pieces: seq<string>, sep: string): string {
    if pieces == [] then ""
    else if |pieces| == 1 then pieces[0]
    else pieces[0] + sep + Join(pieces[1..], sep)
  }

  /** Splitting cuts at every separator and nowhere else, and joining puts the text back together. */
  lemma {:induction false} JoinUndoesSplit(s: string, sep: char)
    ensures Join(Split(s, sep), [sep]) == s
    ensures forall p :: p in Split(s, sep) ==> sep !in p
  {
    if s != "" {
      JoinUndoesSplit(s[1..], sep);
      var rest := Split(s[1..], sep);
      assert s == [s[0]] + s[1..];
      if s[0] == sep {
        assert Split(s, sep)[1..] == rest;
      } else {
        var all := Split(s, sep);
        assert all[1..] == rest[1..];
        if |rest| > 1 {
          assert ([s[0]] + rest[0]) + [sep] + Join(rest[1..], [sep])
              == [s[0]] + (rest[0] + [sep] + Join(rest[1..], [sep]));
        }
        forall p | p in all ensures sep !in p {
          if p != all[0] {
            assert p in rest;
          }
        }
      }
    }
  }

  /** Splitting a piece without separators, a separator, and a rest. */
  lemma {:induction false} SplitLine(line: string, sep: char, rest: string)
    requires sep !in line
    ensures Split(line + [sep] + rest, sep) == [line] + Split(rest, sep)
  {
    var s := line + [sep] + rest;
    if line == "" {
      assert s[1..] == rest;
    } else {
      assert s[1..] == line[1..] + [sep] + rest;
      SplitLine(line[1..], sep, rest);
      assert line == [line[0]] + line[1..];
      assert ([line[1..]] + Split(rest, sep))[1..] == Split(rest, sep);
    }
  }

  /** Conversely pieces without separators are found again. */
  lemma {:induction false} SplitUndoesJoin(pieces: seq<string>, sep: char)
    requires pieces != [] && forall p :: p in pieces ==> sep !in p
    ensures Split(Join(pieces, [sep]), sep) == pieces
  {
    if |pieces| == 1 {
      SplitOne(pieces[0], sep);
    } else {
      SplitUndoesJoin(pieces[1..], sep);
      SplitLine(pieces[0], sep, Join(pieces[1..], [sep]));
      assert pieces == [pieces[0]] + pieces[1..];
    }
  }

  lemma {:induction false} SplitOne(line: string, sep: char)
    requires sep !in line
    ensures Split(line, sep) == [line]
  {
    if line != "" {
      SplitOne(line[1..], sep);
      assert line == [line[0]] + line[1..];
    }
  }

  lemma FrontPiece(pieces: seq<string>)
    requires pieces != []
    ensures ["" + pieces[0]] + pieces[1..] == pieces
  {
    assert "" + pieces[0] == pieces[0];
  }

  /** The loop keeps finished pieces and the current one. */
  method SplitOf(s: string, sep: char) returns (out: seq<string>)
    ensures out == Split(s, sep)
  {
    out := [];
    var cur := "";
    FrontPiece(Split(s, sep));
    assert s[0..] == s && [] + Split(s, sep) == Split(s, sep);
    for i := 0 to |s|
      invariant var rest := Split(s[i..], sep);
                Split(s, sep) == out + ([cur + rest[0]] + rest[1..])
    {
      ghost var rest := Split(s[i + 1..], sep);
      assert s[i..][1..] == s[i + 1..];
      var c := s[i];
      if c == sep {
        assert ([""] + rest)[1..] == rest && cur + "" == cur;
        assert out + ([cur] + rest) == (out + [cur]) + rest;
        out := out + [cur];
        cur := "";
        FrontPiece(rest);
      } else {
        assert cur + ([c] + rest[0]) == (cur + [c]) + rest[0];
        cur := cur + [c];
      }
    }
    assert cur + "" == cur;
    out := out + [cur];
  }

  method JoinOf(v: seq<string>, sep: string) returns (out: string)
    ensures out == Join(v, sep)
  {
    out := "";
    for i := 0 to |v|
      invariant out == Join(v[..i], sep)
    {
      JoinSnoc(v[..i], v[i], sep);
      assert v[..i] + [v[i]] == v[..i + 1];
      if i > 0 {
        out := out + sep;
      }
      out := out + v[i];
    }
    assert v[..|v|] == v;
  }

  lemma {:induction false} JoinSnoc(v: seq<string>, p: string, sep: string)
    ensures Join(v + [p], sep) == if v == [] then p else Join(v, sep) + sep + p
  {
    if |v| > 1 {
      assert (v + [p])[1..] == v[1..] + [p];
      JoinSnoc(v[1..], p, sep);
      assert v[0] + sep + (Join(v[1..], sep) + sep + p) == (v[0] + sep + Join(v[1..], sep)) + sep + p;
    } else if |v| == 1 {
      assert (v + [p])[1..] == [p];
    }
  }

  ghost predicate AllSpace(s: string) {
    forall i :: 0 <= i < |s| ==> IsSpace(s[i])
  }

  /** `t` is `s` without the space at both ends. */
  ghost predicate Trimmed(s: string, t: string) {
    && (exists a, b :: AllSpace(a) && AllSpace(b) && s == a + t + b)
    && (t != "" ==> !IsSpace(t[0]) && !IsSpace(t[|t| - 1]))
  }

  lemma TrimmedIsUnique(s: string, t: string, u: string)
    requires Trimmed(s, t) && Trimmed(s, u)
    ensures t == u
  {
    var a, b :| AllSpace(a) && AllSpace(b) && s == a + t + b;
    var c, d :| AllSpace(c) && AllSpace(d) && s == c + u + d;
    PieceOfSpace(s, a, t, b);
    PieceOfSpace(s, c, u, d);
    if t != "" && u != "" {
      NotInside(s, a, t, b, c, u, d);
      NotInside(s, c, u, d, a, t, b);
      assert t == s[|a|..|a| + |t|] == u;
    } else {
      assert AllSpace(s);
    }
  }

  /** Text that starts and ends without space does not reach into the space around other text. */
  lemma NotInside(s: string, a: string, t: string, b: string, c: string, u: string, d: string)
    requires s == a + t + b == c + u + d && AllSpace(a) && AllSpace(b) && t != ""
    requires u != "" && !IsSpace(u[0]) && !IsSpace(u[|u| - 1])
    ensures |a| <= |c| && |c| + |u| <= |a| + |t|
  {
    assert s[|c|] == u[0] && s[|c| + |u| - 1] == u[|u| - 1];
    assert forall i :: 0 <= i < |a| ==> s[i] == a[i];
    assert forall i :: |a| + |t| <= i < |s| ==> s[i] == b[i - (|a| + |t|)];
  }

  lemma PieceOfSpace(s: string, a: string, t: string, b: string)
    requires s == a + t + b
    ensures t != "" ==> (AllSpace(s) ==> IsSpace(t[0]))
  {
    if t != "" {
      assert s[|a|] == t[0];
    }
  }

  function TrimLeft(s: string): string {
    if s != "" && IsSpace(s[0]) then TrimLeft(s[1..]) else s
  }

  function TrimRight(s: string): string {
    if s != "" && IsSpace(s[|s| - 1]) then TrimRight(s[..|s| - 1]) else s
  }

  function Trim(s: string): string {
    TrimRight(TrimLeft(s))
  }

  lemma {:induction false} TrimLeftCuts(s: string) returns (a: string)
    ensures AllSpace(a) && s == a + TrimLeft(s)
    ensures TrimLeft(s) != "" ==> !IsSpace(TrimLeft(s)[0])
  {
    if s != "" && IsSpace(s[0]) {
      var b := TrimLeftCuts(s[1..]);
      a := [s[0]] + b;
      assert s == [s[0]] + s[1..];
    } else {
      a := "";
    }
  }

  lemma {:induction false} TrimRightCuts(s: string) returns (b: string)
    ensures AllSpace(b) && s == TrimRight(s) + b
    ensures TrimRight(s) != "" ==> !IsSpace(TrimRight(s)[|TrimRight(s)| - 1])
  {
    if s != "" && IsSpace(s[|s| - 1]) {
      var t, c := s[..|s| - 1], s[|s| - 1];
      var a := TrimRightCuts(t);
      b := a + [c];
      assert s == t + [c];
      assert (TrimRight(t) + a) + [c] == TrimRight(t) + (a + [c]);
    } else {
      b := "";
    }
  }

  lemma TrimTrims(s: string)
    ensures Trimmed(s, Trim(s))
  {
    var a := TrimLeftCuts(s);
    var b := TrimRightCuts(TrimLeft(s));
    assert s == a + Trim(s) + b;
    assert Trim(s) != "" ==> Trim(s)[0] == TrimLeft(s)[0];
  }

  method TrimOf(s: string) returns (t: string)
    ensures t == Trim(s)
  {
    var b, e := 0, |s|;
    while b < e && IsSpace(s[b])
      invariant b <= e && AllSpace(s[..b])
    {
      b := b + 1;
    }
    while e > b && IsSpace(s[e - 1])
      invariant b <= e <= |s| && AllSpace(s[e..])
      invariant b < |s| ==> !IsSpace(s[b])
    {
      e := e - 1;
    }
    t := s[b..e];
    assert s == s[..b] + t + s[e..];
    TrimTrims(s);
    TrimmedIsUnique(s, t, Trim(s));
  }
}
