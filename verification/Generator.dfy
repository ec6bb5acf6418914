/**
 The test generator: names and types are cleaned, and the declarations found in a source file are filtered. The
 declarations (the matches of the regular expression) are an input. Character classes are those of the C locale.
 */
module Generator {
  import opened Wrappers
  import Text

  predicate IsAlpha(c: char) {
    'a' <= c <= 'z' || 'A' <= c <= 'Z'
  }

  predicate IsAlnum(c: char) {
    IsAlpha(c) || '0' <= c <= '9'
  }

  // Names

  predicate Starts(c: char) {
    IsAlpha(c) || c == '_'
  }

  predicate ValidIdent(s: string) {
    s != "" && Starts(s[0]) && forall i :: 0 <= i < |s| ==> IsAlnum(s[i]) || s[i] == '_' || s[i] == '.'
  }

  method IsValidIdent(s: string) returns (ok: bool)
    ensures ok == ValidIdent(s)
  {
    if s == "" || !Starts(s[0]) {
      return false;
    }
    for i := 0 to |s|
      invariant forall j :: 0 <= j < i ==> IsAlnum(s[j]) || s[j] == '_' || s[j] == '.'
    {
      if !(IsAlnum(s[i]) || s[i] == '_' || s[i] == '.') {
        return false;
      }
    }
    return true;
  }

  /** What becomes of one character of a name. */
  function Kept(c: char): string {
    if IsAlnum(c) || c == '_' then [c] else if c == ' ' || c == '\t' then "_" else ""
  }

  function KeptOf(s: string): string {
    if s == "" then "" else KeptOf(s[..|s| - 1]) + Kept(s[|s| - 1])
  }

  function CleanIdent(s: string): string {
    var out := KeptOf(s);
    if out == "" then "auto_leanffi_decl" else if Starts(out[0]) then out else "_" + out
  }

  method CleanIdentOf(s: string) returns (out: string)
    ensures out == CleanIdent(s)
  {
    out := "";
    for i := 0 to |s|
      invariant out == KeptOf(s[..i])
    {
      assert s[..i + 1][..i] == s[..i];
      var c := s[i];
      if IsAlnum(c) || c == '_' {
        out := out + [c];
      } else if c == ' ' || c == '\t' {
        out := out + "_";
      }
    }
    assert s[..|s|] == s;
    if out == "" {
      return "auto_leanffi_decl";
    }
    if !Starts(out[0]) {
      out := "_" + out;
    }
  }

  predicate Simple(s: string) {
    forall i :: 0 <= i < |s| ==> IsAlnum(s[i]) || s[i] == '_'
  }

  lemma {:induction false} KeptIsSimple(s: string)
    ensures Simple(KeptOf(s)) && (KeptOf(s) == s <==> Simple(s)) && |KeptOf(s)| <= |s|
  {
    if s != "" {
      var n := |s| - 1;
      KeptIsSimple(s[..n]);
      assert s == s[..n] + [s[n]];
      if Simple(s) {
        assert forall i :: 0 <= i < n ==> s[..n][i] == s[i];
      }
      if KeptOf(s) == s {
        assert KeptOf(s[..n]) == s[..n] && Kept(s[n]) == [s[n]];
      }
    }
  }

  lemma FallbackIsSimple()
    ensures Simple("auto_leanffi_decl") && Starts("auto_leanffi_decl"[0])
  {
  }

  /** A cleaned name is always a valid identifier, so the validity test in `generate` never fails. */
  lemma CleanIdentIsValid(s: string)
    ensures ValidIdent(CleanIdent(s)) && Simple(CleanIdent(s))
  {
    KeptIsSimple(s);
    FallbackIsSimple();
    SimpleIsValid(KeptOf(s));
    SimpleIsValid(CleanIdent(s));
  }

  lemma SimpleIsValid(t: string)
    requires Simple(t)
    ensures Simple("_" + t) && (t != "" && Starts(t[0]) ==> ValidIdent(t))
  {
    assert forall i :: 0 < i < |"_" + t| ==> ("_" + t)[i] == t[i - 1];
  }

  /** The names that cleaning leaves alone are the valid identifiers without dots. */
  lemma CleanIdentFixes(s: string)
    ensures CleanIdent(s) == s <==> ValidIdent(s) && '.' !in s
  {
    KeptIsSimple(s);
    CleanIdentIsValid(s);
    if ValidIdent(s) && '.' !in s {
      assert forall i :: 0 <= i < |s| ==> s[i] in s;
    }
  }

  /** Cleaning is not injective: a dot at the end of any name vanishes. */
  lemma CleanIdentMerges(s: string)
    ensures CleanIdent(s + ".") == CleanIdent(s)
  {
    var t := s + ".";
    assert t[..|t| - 1] == s && Kept('.') == "";
    assert KeptOf(t) == KeptOf(s) + "" == KeptOf(s);
  }

  lemma {:induction false} KeptAppend(a: string, b: string)
    ensures KeptOf(a + b) == KeptOf(a) + KeptOf(b)
  {
    if b == "" {
      assert a + b == a && KeptOf(a) + "" == KeptOf(a);
    } else {
      var n := |b| - 1;
      KeptAppend(a, b[..n]);
      LastOf(a, b);
      KeptSnoc(a + b[..n], b[n]);
      Assoc(KeptOf(a), KeptOf(b[..n]), Kept(b[n]));
    }
  }

  lemma KeptSnoc(s: string, c: char)
    ensures KeptOf(s + [c]) == KeptOf(s) + Kept(c)
  {
    TakeAll(s, c);
  }

  /** Any character but letters, digits, underscores, spaces and tabs vanishes from a name. */
  lemma CleanIdentDrops(a: string, c: char, b: string)
    requires !IsAlnum(c) && c != '_' && c != ' ' && c != '\t'
    ensures CleanIdent(a + [c] + b) == CleanIdent(a + b)
  {
    KeptAppend(a + [c], b);
    KeptAppend(a, [c]);
    KeptAppend(a, b);
    assert [c][..0] == "" && KeptOf([c]) == "" && KeptOf(a) + "" == KeptOf(a);
  }

  /** Otherwise spaces and tabs become underscores, and a name that starts with a digit gets an underscore in front. */
  lemma CleanIdentReplaces(s: string)
    requires forall i :: 0 <= i < |s| ==> IsAlnum(s[i]) || s[i] == '_' || s[i] == ' ' || s[i] == '\t'
    ensures s == "" ==> CleanIdent(s) == "auto_leanffi_decl"
    ensures s != "" ==> var r := seq(|s|, i requires 0 <= i < |s| => if IsAlnum(s[i]) then s[i] else '_');
                        CleanIdent(s) == if '0' <= s[0] <= '9' then "_" + r else r
  {
    KeptOfAllowed(s);
  }

  lemma {:induction false} KeptOfAllowed(s: string)
    requires forall i :: 0 <= i < |s| ==> IsAlnum(s[i]) || s[i] == '_' || s[i] == ' ' || s[i] == '\t'
    ensures KeptOf(s) == seq(|s|, i requires 0 <= i < |s| => if IsAlnum(s[i]) then s[i] else '_')
  {
    if s != "" {
      KeptOfAllowed(s[..|s| - 1]);
    }
  }

  // Types

  /** The maximal runs of characters that are not space. */
  ghost function Words(s: string): (ws: seq<string>)
    ensures s != "" && !Text.IsSpace(s[|s| - 1]) ==> ws != []
  {
    if s == "" then []
    else
      var n := |s| - 1;
      var ws := Words(s[..n]);
      if Text.IsSpace(s[n]) then ws
      else if n == 0 || Text.IsSpace(s[n - 1]) then ws + [[s[n]]]
      else ws[..|ws| - 1] + [ws[|ws| - 1] + [s[n]]]
  }

  ghost predicate IsWord(w: string) {
    w != "" && forall i :: 0 <= i < |w| ==> !Text.IsSpace(w[i])
  }

  ghost function Concat(ws: seq<string>): string {
    if ws == [] then "" else Concat(ws[..|ws| - 1]) + ws[|ws| - 1]
  }

  ghost function WithoutSpace(s: string): string {
    if s == "" then ""
    else WithoutSpace(s[..|s| - 1]) + if Text.IsSpace(s[|s| - 1]) then "" else [s[|s| - 1]]
  }

  lemma {:induction false} WordsAreWords(s: string)
    ensures forall w :: w in Words(s) ==> IsWord(w)
  {
    if s != "" {
      var n := |s| - 1;
      var ws := Words(s[..n]);
      WordsAreWords(s[..n]);
      if !Text.IsSpace(s[n]) && n > 0 && !Text.IsSpace(s[n - 1]) {
        assert s[..n][n - 1] == s[n - 1];
        assert ws[|ws| - 1] in ws;
      }
    }
  }

  /** Words hold all characters that are not space, in order, and no others. */
  lemma {:induction false} WordsHoldTheText(s: string)
    ensures Concat(Words(s)) == WithoutSpace(s)
  {
    if s != "" {
      var n := |s| - 1;
      var ws := Words(s[..n]);
      WordsHoldTheText(s[..n]);
      if !Text.IsSpace(s[n]) {
        if n == 0 || Text.IsSpace(s[n - 1]) {
          ConcatSnoc(ws, [s[n]]);
        } else {
          var k := |ws| - 1;
          assert s[..n][n - 1] == s[n - 1];
          ConcatSnoc(ws[..k], ws[k] + [s[n]]);
          Assoc(Concat(ws[..k]), ws[k], [s[n]]);
        }
      }
    }
  }

  /** Gaps and words in turn. */
  ghost function Interleave(gaps: seq<string>, ws: seq<string>): string
    requires |gaps| == |ws| + 1
  {
    if ws == [] then gaps[0]
    else
      var n := |ws| - 1;
      Interleave(gaps[..n + 1], ws[..n]) + (ws[n] + gaps[n + 1])
  }

  /** Only space stands around the words, and between two words there is some. */
  ghost predicate Spread(s: string, gaps: seq<string>, ws: seq<string>) {
    && |gaps| == |ws| + 1 && s == Interleave(gaps, ws)
    && (forall i :: 0 <= i < |gaps| ==> Text.AllSpace(gaps[i]))
    && (forall i :: 0 < i < |ws| ==> gaps[i] != "")
    && (ws != [] ==> s != "" && (gaps[|ws|] == "" <==> !Text.IsSpace(s[|s| - 1])))
  }

  /** So no word can be longer, and no other words are in the text. */
  lemma {:induction false} WordsInText(s: string) returns (gaps: seq<string>)
    ensures Spread(s, gaps, Words(s))
  {
    if s == "" {
      gaps := [""];
    } else {
      var n := |s| - 1;
      var front, c, ws := s[..n], s[n], Words(s[..n]);
      var before := WordsInText(front);
      WordsNext(s, n);
      assert s[..n + 1] == s == front + [c];
      if Text.IsSpace(c) {
        gaps := before[|ws| := before[|ws|] + [c]];
        SpreadSpace(front, c, before, ws);
      } else if n > 0 && !Text.IsSpace(s[n - 1]) {
        gaps := before;
        SpreadGrown(front, c, before, ws);
      } else {
        gaps := before + [""];
        SpreadNew(front, c, before, ws);
      }
    }
  }

  lemma SpreadSpace(s: string, c: char, gaps: seq<string>, ws: seq<string>)
    requires Spread(s, gaps, ws) && Text.IsSpace(c)
    ensures Spread(s + [c], gaps[|ws| := gaps[|ws|] + [c]], ws)
  {
    InterleaveLast(gaps, ws, [c]);
  }

  lemma SpreadGrown(s: string, c: char, gaps: seq<string>, ws: seq<string>)
    requires Spread(s, gaps, ws) && !Text.IsSpace(c) && ws != [] && !Text.IsSpace(s[|s| - 1])
    ensures var k := |ws| - 1; Spread(s + [c], gaps, ws[..k] + [ws[k] + [c]])
  {
    InterleaveGrown(gaps, ws, c);
  }

  lemma SpreadNew(s: string, c: char, gaps: seq<string>, ws: seq<string>)
    requires Spread(s, gaps, ws) && !Text.IsSpace(c) && EndsOpen(s)
    ensures Spread(s + [c], gaps + [""], ws + [[c]])
  {
    var more, k := gaps + [""], |ws|;
    assert more[..k + 1] == gaps && (ws + [[c]])[..k] == ws && [c] + "" == [c];
  }

  lemma InterleaveLast(gaps: seq<string>, ws: seq<string>, t: string)
    requires |gaps| == |ws| + 1
    ensures Interleave(gaps[|ws| := gaps[|ws|] + t], ws) == Interleave(gaps, ws) + t
  {
    var k := |ws|;
    var more := gaps[k := gaps[k] + t];
    if k > 0 {
      assert more[..k] == gaps[..k];
      Assoc(ws[k - 1], gaps[k], t);
      Assoc(Interleave(gaps[..k], ws[..k - 1]), ws[k - 1] + gaps[k], t);
    }
  }

  lemma InterleaveGrown(gaps: seq<string>, ws: seq<string>, c: char)
    requires |gaps| == |ws| + 1 && ws != [] && gaps[|ws|] == ""
    ensures var k := |ws| - 1; Interleave(gaps, ws[..k] + [ws[k] + [c]]) == Interleave(gaps, ws) + [c]
  {
    var k := |ws| - 1;
    var grown := ws[..k] + [ws[k] + [c]];
    assert grown[..k] == ws[..k] && ws[k] + "" == ws[k] && (ws[k] + [c]) + "" == ws[k] + [c];
    Assoc(Interleave(gaps[..k + 1], ws[..k]), ws[k], [c]);
  }

  lemma ConcatSnoc(ws: seq<string>, w: string)
    ensures Concat(ws + [w]) == Concat(ws) + w
  {
    assert (ws + [w])[..|ws|] == ws;
  }

  ghost function Joined(s: string): string {
    Text.Join(Words(s), " ")
  }

  function Truncated(s: string): string {
    if |s| > 240 then s[..240] else s
  }

  ghost function CleanType(s: string): string {
    Truncated(Joined(s))
  }

  lemma WordsNext(s: string, i: nat)
    requires i < |s|
    ensures i > 0 && !Text.IsSpace(s[i - 1]) ==> Words(s[..i]) != []
    ensures var ws := Words(s[..i]);
            Words(s[..i + 1]) ==
              if Text.IsSpace(s[i]) then ws
              else if i > 0 && !Text.IsSpace(s[i - 1]) then ws[..|ws| - 1] + [ws[|ws| - 1] + [s[i]]]
              else ws + [[s[i]]]
  {
    assert s[..i + 1][..i] == s[..i];
    assert i > 0 ==> s[..i][i - 1] == s[i - 1];
  }

  lemma JoinGrows(front: seq<string>, w: string, c: char)
    ensures Text.Join(front + [w + [c]], " ") == Text.Join(front + [w], " ") + [c]
  {
    Text.JoinSnoc(front, w, " ");
    Text.JoinSnoc(front, w + [c], " ");
    Assoc(Text.Join(front, " ") + " ", w, [c]);
  }

  lemma Assoc(a: string, b: string, c: string)
    ensures (a + b) + c == a + (b + c)
  {
  }

  /** The joined words grow with the text as the loop writes them. */
  lemma JoinedNext(s: string, i: nat)
    requires i < |s|
    ensures var before, c := Joined(s[..i]), s[i];
            Joined(s[..i + 1]) ==
              if Text.IsSpace(c) then before
              else if i > 0 && !Text.IsSpace(s[i - 1]) then before + [c]
              else if before == "" then [c] else before + " " + [c]
  {
    var ws := Words(s[..i]);
    WordsNext(s, i);
    if !Text.IsSpace(s[i]) {
      if i > 0 && !Text.IsSpace(s[i - 1]) {
        var k := |ws| - 1;
        assert ws == ws[..k] + [ws[k]];
        JoinGrows(ws[..k], ws[k], s[i]);
      } else {
        WordsAreWords(s[..i]);
        Text.JoinSnoc(ws, [s[i]], " ");
        JoinIsEmpty(ws);
      }
    }
  }

  lemma JoinIsEmpty(ws: seq<string>)
    requires forall w :: w in ws ==> IsWord(w)
    ensures Text.Join(ws, " ") == "" <==> ws == []
    ensures Text.Join(ws, " ") != "" ==> !Text.IsSpace(Text.Join(ws, " ")[|Text.Join(ws, " ")| - 1])
  {
    if ws != [] {
      var k := |ws| - 1;
      assert ws == ws[..k] + [ws[k]] && ws[k] in ws;
      Text.JoinSnoc(ws[..k], ws[k], " ");
    }
  }

  method DropEnd(s: string, ghost t: string) returns (out: string)
    requires (s == t || s == t + " ") && (t == "" || t[|t| - 1] != ' ')
    ensures out == t
  {
    out := s;
    while out != "" && out[|out| - 1] == ' '
      invariant out == t || out == t + " "
      decreases |out|
    {
      out := out[..|out| - 1];
    }
  }

  method CleanTypeOf(s: string) returns (out: string)
    ensures out == CleanType(s)
  {
    out := "";
    var prevWs := false;
    for i := 0 to |s|
      invariant prevWs == (i > 0 && Text.IsSpace(s[i - 1]))
      invariant out == if prevWs && Joined(s[..i]) != "" then Joined(s[..i]) + " " else Joined(s[..i])
    {
      JoinedNext(s, i);
      if Text.IsSpace(s[i]) {
        if !prevWs && out != "" {
          out := out + " ";
        }
        prevWs := true;
      } else {
        out := out + [s[i]];
        prevWs := false;
      }
    }
    assert s[..|s|] == s;
    WordsAreWords(s);
    JoinIsEmpty(Words(s));
    out := DropEnd(out, Joined(s));
    if |out| > 240 {
      out := out[..240];
    }
  }

  // Selecting tests

  datatype Decl = Decl(keyword: string, name: string, binders: string, typ: string, proof: string)

  datatype Test = Test(kind: string, name: string, typ: string, value: string, file: string, hash: string)

  predicate Trailing(c: char) {
    c == ',' || c == ';' || Text.IsSpace(c)
  }

  function Strip(proof: string): string {
    if proof != "" && Trailing(proof[|proof| - 1]) then Strip(proof[..|proof| - 1]) else proof
  }

  function Unwrapped(b: string): string {
    if |b| >= 2 && ((b[0] == '(' && b[|b| - 1] == ')') || (b[0] == '{' && b[|b| - 1] == '}')) then b[1..|b| - 1]
    else b
  }

  function FullType(d: Decl): string {
    var b := Unwrapped(d.binders);
    if b != "" then "forall " + b + ", " + Text.Trim(d.typ) else Text.Trim(d.typ)
  }

  predicate OccursAt(p: string, s: string, i: nat) {
    i + |p| <= |s| && s[i..i + |p|] == p
  }

  predicate Occurs(p: string, s: string) {
    exists i :: 0 <= i <= |s| && OccursAt(p, s, i)
  }

  predicate SafeProof(proof: string) {
    Occurs("by sorry", proof) || proof == "rfl" || proof == "True.intro"
    || (|proof| <= 24 && forall i :: 0 <= i < |proof| ==> proof[i] !in ":=;{}[]<>\\")
  }

  /** The declaration passes the tests that do not depend on the others. */
  ghost predicate Acceptable(d: Decl) {
    CleanType(FullType(d)) != "" && SafeProof(Strip(d.proof))
  }

  ghost function TestOf(d: Decl, file: string, hash: string): Test {
    Test(if d.keyword == "lemma" then "addLemma" else "addTheorem", CleanIdent(d.name), CleanType(FullType(d)),
         "by sorry", file, hash)
  }

  ghost function Candidate(d: Decl, file: string, hash: string): Option<Test> {
    if Acceptable(d) then Some(TestOf(d, file, hash)) else None
  }

  ghost function Candidates(ds: seq<Decl>, file: string, hash: string): seq<Option<Test>> {
    seq(|ds|, i requires 0 <= i < |ds| => Candidate(ds[i], file, hash))
  }

  /** The first candidate of each name that has not been seen. */
  ghost function Firsts(cs: seq<Option<Test>>, seen: set<string>): seq<Test> {
    if cs == [] then []
    else if cs[0].None? || cs[0].value.name in seen then Firsts(cs[1..], seen)
    else [cs[0].value] + Firsts(cs[1..], seen + {cs[0].value.name})
  }

  /** All tests of a file. */
  ghost function Selected(ds: seq<Decl>, file: string, hash: string): seq<Test> {
    Firsts(Candidates(ds, file, hash), {})
  }

  ghost predicate GoodTest(t: Test) {
    ValidIdent(t.name) && t.value == "by sorry" && 0 < |t.typ| <= 240
  }

  ghost predicate DistinctNames(ts: seq<Test>) {
    forall i, j :: 0 <= i < j < |ts| ==> ts[i].name != ts[j].name
  }

  lemma {:induction false} FirstsAreDistinct(cs: seq<Option<Test>>, seen: set<string>)
    ensures DistinctNames(Firsts(cs, seen))
    ensures forall t :: t in Firsts(cs, seen) ==> Some(t) in cs && t.name !in seen
  {
    if cs != [] {
      var rest := if cs[0].None? then seen else seen + {cs[0].value.name};
      FirstsAreDistinct(cs[1..], seen);
      FirstsAreDistinct(cs[1..], rest);
      assert forall c :: c in cs[1..] ==> c in cs;
      assert cs[0] in cs;
    }
  }

  /** No name is missing: of several candidates with one name, one is taken. */
  lemma {:induction false} FirstsCover(cs: seq<Option<Test>>, seen: set<string>, c: Option<Test>)
    requires c in cs && c.Some? && c.value.name !in seen
    ensures exists t :: t in Firsts(cs, seen) && t.name == c.value.name
  {
    var all := Firsts(cs, seen);
    if cs[0].Some? && cs[0].value.name == c.value.name {
      assert all[0] in all;
    } else {
      var rest := if cs[0].None? || cs[0].value.name in seen then seen else seen + {cs[0].value.name};
      FirstsCover(cs[1..], rest, c);
      var t :| t in Firsts(cs[1..], rest) && t.name == c.value.name;
      assert t in all;
    }
  }

  lemma CandidateIsGood(d: Decl, file: string, hash: string)
    ensures Candidate(d, file, hash).Some? ==> GoodTest(Candidate(d, file, hash).value)
  {
    CleanIdentIsValid(d.name);
  }

  /** The tests come from acceptable declarations, each name once, and every acceptable declaration's name is there. */
  lemma SelectedAreGood(ds: seq<Decl>, file: string, hash: string)
    ensures var ts := Selected(ds, file, hash);
            && DistinctNames(ts)
            && (forall t :: t in ts ==> GoodTest(t) && Some(t) in Candidates(ds, file, hash))
            && (forall i :: 0 <= i < |ds| && Acceptable(ds[i]) ==>
                  exists t :: t in ts && t.name == CleanIdent(ds[i].name))
  {
    var cs := Candidates(ds, file, hash);
    FirstsAreDistinct(cs, {});
    forall t | t in Selected(ds, file, hash) ensures GoodTest(t) {
      var i :| 0 <= i < |cs| && cs[i] == Some(t);
      CandidateIsGood(ds[i], file, hash);
    }
    forall i | 0 <= i < |ds| && Acceptable(ds[i])
      ensures exists t :: t in Selected(ds, file, hash) && t.name == CleanIdent(ds[i].name)
    {
      assert cs[i] in cs;
      FirstsCover(cs, {}, cs[i]);
    }
  }

  function FirstOf<T>(s: seq<T>, limit: nat): seq<T> {
    s[..if |s| < limit then |s| else limit]
  }

  /** The tests of one source file. */
  method Generate(source: string, ds: seq<Decl>, file: string, hash: string, limit: nat) returns (out: seq<Test>)
    ensures source == "" ==> out == []
    ensures source != "" ==> out == FirstOf(Selected(ds, file, hash), limit)
    ensures |out| <= limit && DistinctNames(out) && forall t :: t in out ==> GoodTest(t)
  {
    out := [];
    if source == "" {
      return;
    }
    out := SelectTests(ds, file, hash, limit);
    SelectedAreGood(ds, file, hash);
  }

  /** The loop of `generate`: it stops at the limit, so the result is a front of all tests of the file. */
  method SelectTests(ds: seq<Decl>, file: string, hash: string, limit: nat) returns (out: seq<Test>)
    ensures out == FirstOf(Selected(ds, file, hash), limit)
  {
    out := [];
    var seen: set<string> := {};
    var i := 0;
    ghost var cs := Candidates(ds, file, hash);
    ghost var all := Firsts(cs, {});
    assert cs[0..] == cs && [] + all == all;
    while i < |ds| && |out| < limit
      invariant i <= |ds| && |out| <= limit
      invariant all == out + Firsts(cs[i..], seen)
    {
      out, seen := TakeNext(ds, i, file, hash, cs, seen, out);
      i := i + 1;
    }
    FrontReached(all, out, Firsts(cs[i..], seen), limit);
  }

  /** One turn of the loop. */
  method TakeNext(ds: seq<Decl>, i: nat, file: string, hash: string, ghost cs: seq<Option<Test>>, seen: set<string>,
                  out: seq<Test>)
    returns (more: seq<Test>, moreSeen: set<string>)
    requires i < |ds| && cs == Candidates(ds, file, hash)
    ensures more + Firsts(cs[i + 1..], moreSeen) == out + Firsts(cs[i..], seen) && |more| <= |out| + 1
  {
    var t := Examine(ds[i], file, hash);
    FirstsNext(cs, i, seen, out);
    more, moreSeen := out, seen;
    if t.Some? && t.value.name !in seen {
      moreSeen := seen + {t.value.name};
      more := out + [t.value];
    }
  }

  lemma FrontReached(all: seq<Test>, out: seq<Test>, rest: seq<Test>, limit: nat)
    requires all == out + rest && |out| <= limit && (rest == [] || |out| == limit)
    ensures out == FirstOf(all, limit)
  {
  }

  lemma FirstsNext(cs: seq<Option<Test>>, i: nat, seen: set<string>, out: seq<Test>)
    requires i < |cs|
    ensures out + Firsts(cs[i..], seen)
         == if cs[i].Some? && cs[i].value.name !in seen
            then (out + [cs[i].value]) + Firsts(cs[i + 1..], seen + {cs[i].value.name})
            else out + Firsts(cs[i + 1..], seen)
  {
    assert cs[i..][1..] == cs[i + 1..] && cs[i..][0] == cs[i];
    if cs[i].Some? && cs[i].value.name !in seen {
      var rest := Firsts(cs[i + 1..], seen + {cs[i].value.name});
      assert out + ([cs[i].value] + rest) == (out + [cs[i].value]) + rest;
    }
  }

  // What becomes of a declaration, in terms of the declaration

  ghost predicate Wrapped(binders: string, inner: string) {
    binders == "(" + inner + ")" || binders == "{" + inner + "}"
  }

  /** The type with its binders, before its words are joined: binders in brackets lose them, empty ones vanish. */
  ghost predicate TypeText(d: Decl, text: string) {
    if d.binders == "" || Wrapped(d.binders, "") then text == d.typ
    else if exists inner :: Wrapped(d.binders, inner) then
      exists inner :: Wrapped(d.binders, inner) && text == "forall " + inner + ", " + d.typ
    else text == "forall " + d.binders + ", " + d.typ
  }

  ghost predicate OnlyEnds(tail: string) {
    forall i :: 0 <= i < |tail| ==> tail[i] == ',' || tail[i] == ';' || Text.IsSpace(tail[i])
  }

  /** The proof without trailing commas, semicolons and space. */
  ghost predicate Core(proof: string, core: string) {
    && (exists tail :: proof == core + tail && OnlyEnds(tail))
    && (core != "" ==> var c := core[|core| - 1]; c != ',' && c != ';' && !Text.IsSpace(c))
  }

  ghost predicate Accepted(core: string) {
    || (exists a, b :: core == a + "by sorry" + b)
    || core == "rfl" || core == "True.intro"
    || (|core| <= 24 && forall i :: 0 <= i < |core| ==>
                                      core[i] !in {':', '=', ';', '{', '}', '[', ']', '<', '>', '\\'})
  }

  /** What the declaration becomes: no test without words in the type or with another proof; else this one. */
  ghost predicate Becomes(d: Decl, text: string, core: string, file: string, hash: string, t: Option<Test>) {
    && (t.Some? <==> Words(text) != [] && Accepted(core))
    && (t.Some? ==>
          && t.value.typ == FirstOf(Text.Join(Words(text), " "), 240)
          && t.value.kind == (if d.keyword == "lemma" then "addLemma" else "addTheorem")
          && t.value.name == CleanIdent(d.name) && t.value.value == "by sorry"
          && t.value.file == file && t.value.hash == hash)
  }

  predicate EndsOpen(s: string) {
    s == "" || Text.IsSpace(s[|s| - 1])
  }

  /** One more character extends equal words in the same way if a word goes on in both texts or in neither. */
  lemma WordsAfter(s: string, t: string, c: char)
    requires Words(s) == Words(t) && (EndsOpen(s) <==> EndsOpen(t))
    ensures Words(s + [c]) == Words(t + [c])
  {
    WordsNext(s + [c], |s|);
    WordsNext(t + [c], |t|);
    TakeAll(s, c);
    TakeAll(t, c);
  }

  lemma TakeAll(s: string, c: char)
    ensures (s + [c])[..|s|] == s && (s + [c])[..|s| + 1] == s + [c] && (s + [c])[|s|] == c
    ensures s != "" ==> (s + [c])[|s| - 1] == s[|s| - 1]
  {
  }

  lemma {:induction false} WordsSpaceEnd(s: string, b: string)
    requires Text.AllSpace(b)
    ensures Words(s + b) == Words(s) && (EndsOpen(s) ==> EndsOpen(s + b))
  {
    if b == "" {
      assert s + b == s;
    } else {
      var n := |b| - 1;
      WordsSpaceEnd(s, b[..n]);
      WordsNext((s + b[..n]) + [b[n]], |s| + n);
      TakeAll(s + b[..n], b[n]);
      LastOf(s, b);
    }
  }

  lemma LastOf(s: string, t: string)
    requires t != ""
    ensures var n := |t| - 1; s + t == (s + t[..n]) + [t[n]]
  {
  }

  /** More space after space, or in front of everything, changes no word. */
  lemma {:induction false} WordsSpaceInside(p: string, a: string, t: string)
    requires Text.AllSpace(a) && EndsOpen(p)
    ensures Words((p + a) + t) == Words(p + t)
    ensures EndsOpen((p + a) + t) <==> EndsOpen(p + t)
  {
    if t == "" {
      WordsSpaceEnd(p, a);
      assert (p + a) + t == p + a && p + t == p;
    } else {
      var n := |t| - 1;
      WordsSpaceInside(p, a, t[..n]);
      WordsAfter((p + a) + t[..n], p + t[..n], t[n]);
      LastOf(p + a, t);
      LastOf(p, t);
    }
  }

  lemma TrimmedWords(p: string, a: string, t: string, b: string)
    requires EndsOpen(p) && Text.AllSpace(a) && Text.AllSpace(b)
    ensures Words(p + (a + t + b)) == Words(p + t)
  {
    WordsSpaceInside(p, a, t);
    WordsSpaceEnd((p + a) + t, b);
    Assoc(p, a, t);
    Assoc(p, a + t, b);
  }

  lemma TrimKeepsWords(p: string, t: string)
    requires EndsOpen(p)
    ensures Words(p + Text.Trim(t)) == Words(p + t)
  {
    Text.TrimTrims(t);
    var a, b :| Text.AllSpace(a) && Text.AllSpace(b) && t == a + Text.Trim(t) + b;
    TrimmedWords(p, a, Text.Trim(t), b);
  }

  lemma TrimKeepsAllWords(t: string)
    ensures Words(Text.Trim(t)) == Words(t)
  {
    TrimKeepsWords("", t);
    assert "" + Text.Trim(t) == Text.Trim(t) && "" + t == t;
  }

  lemma UnwrappedIs(binders: string, inner: string)
    requires Wrapped(binders, inner)
    ensures Unwrapped(binders) == inner
  {
  }

  lemma SameWords(d: Decl, text: string)
    requires TypeText(d, text)
    ensures Words(FullType(d)) == Words(text)
  {
    if d.binders == "" {
      TrimKeepsAllWords(d.typ);
    } else if Wrapped(d.binders, "") {
      UnwrappedIs(d.binders, "");
      TrimKeepsAllWords(d.typ);
    } else if exists inner :: Wrapped(d.binders, inner) {
      var inner :| Wrapped(d.binders, inner) && text == "forall " + inner + ", " + d.typ;
      UnwrappedIs(d.binders, inner);
      TrimKeepsWords("forall " + inner + ", ", d.typ);
    } else {
      NotWrapped(d.binders);
      TrimKeepsWords("forall " + d.binders + ", ", d.typ);
    }
  }

  /** The cleaned type holds the first 240 characters of the joined words of the text; it is empty without words. */
  lemma TypeIs(d: Decl, text: string)
    requires TypeText(d, text)
    ensures CleanType(FullType(d)) == FirstOf(Text.Join(Words(text), " "), 240)
    ensures CleanType(FullType(d)) == "" <==> Words(text) == []
  {
    SameWords(d, text);
    WordsAreWords(text);
    JoinIsEmpty(Words(text));
  }

  lemma NotWrapped(binders: string)
    requires forall inner :: !Wrapped(binders, inner)
    ensures Unwrapped(binders) == binders
  {
    var n := |binders|;
    if n >= 2 {
      var inner := binders[1..n - 1];
      assert !Wrapped(binders, inner);
      assert binders == [binders[0]] + inner + [binders[n - 1]];
    }
  }

  lemma {:induction false} StripIsCore(proof: string)
    ensures Core(proof, Strip(proof))
  {
    if proof != "" && Trailing(proof[|proof| - 1]) {
      var n := |proof| - 1;
      StripIsCore(proof[..n]);
      var tail :| proof[..n] == Strip(proof) + tail && OnlyEnds(tail);
      Assoc(Strip(proof), tail, [proof[n]]);
      assert OnlyEnds(tail + [proof[n]]);
      assert proof == proof[..n] + [proof[n]];
    } else {
      assert proof == proof + "" && OnlyEnds("");
    }
  }

  lemma {:induction false} CoreIsStrip(core: string, tail: string)
    requires OnlyEnds(tail) && (core != "" ==> !Trailing(core[|core| - 1]))
    ensures Strip(core + tail) == core
  {
    if tail == "" {
      assert core + tail == core;
    } else {
      var n := |tail| - 1;
      CoreIsStrip(core, tail[..n]);
      StripOne(core + tail[..n], tail[n]);
      LastOf(core, tail);
    }
  }

  lemma StripOne(s: string, c: char)
    requires Trailing(c)
    ensures Strip(s + [c]) == Strip(s)
  {
    TakeAll(s, c);
  }

  lemma CoreIsUnique(proof: string, core: string)
    requires Core(proof, core)
    ensures core == Strip(proof)
  {
    var tail :| proof == core + tail && OnlyEnds(tail);
    CoreIsStrip(core, tail);
  }

  lemma Forbidden(c: char)
    ensures c in ":=;{}[]<>\\" <==> c in {':', '=', ';', '{', '}', '[', ']', '<', '>', '\\'}
  {
    var s := ":=;{}[]<>\\";
    assert s[0] == ':' && s[1] == '=' && s[2] == ';' && s[3] == '{' && s[4] == '}' && s[5] == '[' && s[6] == ']'
           && s[7] == '<' && s[8] == '>' && s[9] == '\\' && |s| == 10;
  }

  lemma AcceptedIsSafe(core: string)
    ensures Accepted(core) <==> SafeProof(core)
  {
    if Occurs("by sorry", core) {
      var i :| 0 <= i <= |core| && OccursAt("by sorry", core, i);
      assert core == core[..i] + "by sorry" + core[i + 8..];
    }
    if a, b :| core == a + "by sorry" + b {
      assert core[|a|..|a| + 8] == "by sorry";
      assert OccursAt("by sorry", core, |a|);
    }
    forall i | 0 <= i < |core|
      ensures core[i] in ":=;{}[]<>\\" <==> core[i] in {':', '=', ';', '{', '}', '[', ']', '<', '>', '\\'}
    {
      Forbidden(core[i]);
    }
  }

  /** There is such a text for every declaration. */
  lemma TypeTextExists(d: Decl) returns (text: string)
    ensures TypeText(d, text)
  {
    if d.binders == "" || Wrapped(d.binders, "") {
      text := d.typ;
    } else if inner :| Wrapped(d.binders, inner) {
      text := "forall " + inner + ", " + d.typ;
    } else {
      text := "forall " + d.binders + ", " + d.typ;
    }
  }

  /** A declaration becomes a test if and only if its type has a word and its proof is accepted; and which test. */
  lemma CandidateIs(d: Decl, file: string, hash: string, text: string, core: string)
    requires TypeText(d, text) && Core(d.proof, core)
    ensures Becomes(d, text, core, file, hash, Candidate(d, file, hash))
  {
    TypeIs(d, text);
    CoreIsUnique(d.proof, core);
    AcceptedIsSafe(core);
  }

  /** One turn of the loop, without the test for names already seen. */
  method Examine(d: Decl, file: string, hash: string) returns (t: Option<Test>)
    ensures t == Candidate(d, file, hash)
    ensures forall text, core :: TypeText(d, text) && Core(d.proof, core) ==> Becomes(d, text, core, file, hash, t)
  {
    t := Check(d, file, hash);
    forall text, core | TypeText(d, text) && Core(d.proof, core) ensures Becomes(d, text, core, file, hash, t) {
      CandidateIs(d, file, hash, text, core);
    }
  }

  method Check(d: Decl, file: string, hash: string) returns (t: Option<Test>)
    ensures t == Candidate(d, file, hash)
  {
    var name := CleanIdentOf(d.name);
    var valid := IsValidIdent(name);
    CleanIdentIsValid(d.name);
    if !valid {
      return None;
    }
    var proof := StripOf(d.proof);
    var fullType := Text.TrimOf(d.typ);
    var b := Unwrapped(d.binders);
    if b != "" {
      fullType := "forall " + b + ", " + fullType;
    }
    fullType := CleanTypeOf(fullType);
    if fullType == "" || |fullType| > 240 || !SafeProof(proof) {
      return None;
    }
    return Some(Test(if d.keyword == "lemma" then "addLemma" else "addTheorem", name, fullType, "by sorry", file,
                     hash));
  }

  method StripOf(p: string) returns (proof: string)
    ensures proof == Strip(p)
  {
    proof := p;
    while proof != "" && Trailing(proof[|proof| - 1])
      invariant Strip(proof) == Strip(p)
      decreases |proof|
    {
      proof := proof[..|proof| - 1];
    }
  }
}
