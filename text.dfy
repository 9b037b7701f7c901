/**
 * The two pieces of the C++ standard library the loaders rely on:
 * `std::string::find` (substring search, `npos` when absent) and
 * `std::getline` over a text stream (split at '\n', the '\n' dropped,
 * a final line without '\n' still read, nothing read after a final '\n').
 * `JoinLines` is the `ss << line << "\n"` accumulation both loaders do.
 */
module Text {

  /** `pat` occurs in `s` starting at index `i`. */
  ghost predicate OccursAt(s: string, pat: string, i: int)
  {
    0 <= i && i + |pat| <= |s| && s[i..i + |pat|] == pat
  }

  ghost predicate Contains(s: string, pat: string)
  {
    exists i :: OccursAt(s, pat, i)
  }

  /** `s.find(pat, from)`, with -1 standing for `npos`. */
  function FindFrom(s: string, pat: string, from: nat): int
    decreases |s| - from
  {
    if from + |pat| > |s| then -1
    else if s[from..from + |pat|] == pat then from
    else FindFrom(s, pat, from + 1)
  }

  /** The search from `from` returns the first occurrence at or after `from`, or -1 when there is none. */
  lemma {:induction false} FindFromFirst(s: string, pat: string, from: nat)
    ensures var r := FindFrom(s, pat, from);
      (r == -1 || (from <= r && OccursAt(s, pat, r))) &&
      (r == -1 ==> forall i :: from <= i ==> !OccursAt(s, pat, i)) &&
      (r != -1 ==> forall i :: from <= i < r ==> !OccursAt(s, pat, i))
    decreases |s| - from
  {
    if from + |pat| <= |s| && s[from..from + |pat|] != pat {
      FindFromFirst(s, pat, from + 1);
    }
  }

  /** `s.find(pat)`: the first occurrence, or -1 (`npos`). */
  function Find(s: string, pat: string): int
  {
    FindFrom(s, pat, 0)
  }

  /** `find` reports an occurrence exactly when there is one, and then the first one. */
  lemma FindFirst(s: string, pat: string)
    ensures Find(s, pat) != -1 <==> Contains(s, pat)
    ensures Find(s, pat) != -1 ==>
      OccursAt(s, pat, Find(s, pat)) && forall i :: 0 <= i < Find(s, pat) ==> !OccursAt(s, pat, i)
  {
    FindFromFirst(s, pat, 0);
  }

  /** Index of the first '\n' in `text`, or `|text|` when there is none. */
  function NewlineIndex(text: string): (k: nat)
    ensures k <= |text|
    ensures forall i :: 0 <= i < k ==> text[i] != '\n'
    ensures k < |text| ==> text[k] == '\n'
  {
    if text == [] || text[0] == '\n' then 0 else 1 + NewlineIndex(text[1..])
  }

  /** The lines successive `std::getline` calls read from a stream holding `text`. */
  function Lines(text: string): (ls: seq<string>)
    decreases |text|
    ensures forall i :: 0 <= i < |ls| ==> '\n' !in ls[i]
  {
    if text == [] then []
    else
      var k := NewlineIndex(text);
      if k == |text| then [text]
      else [text[..k]] + Lines(text[k + 1..])
  }

  /** Every line followed by one "\n", in order. */
  function JoinLines(ls: seq<string>): string
  {
    if ls == [] then [] else JoinLines(ls[..|ls| - 1]) + ls[|ls| - 1] + "\n"
  }

  /** `text` with a final '\n' added when it is non-empty and lacks one. */
  function Normalised(text: string): string
  {
    if text == [] || text[|text| - 1] == '\n' then text else text + "\n"
  }

  lemma {:induction false} JoinLinesCons(l: string, ls: seq<string>)
    ensures JoinLines([l] + ls) == l + "\n" + JoinLines(ls)
    decreases |ls|
  {
    if ls == [] {
      assert [l] + ls == [l];
      assert [l][..0] == [];
    } else {
      var n := |ls|;
      assert ([l] + ls)[..n] == [l] + ls[..n - 1];
      JoinLinesCons(l, ls[..n - 1]);
    }
  }

  lemma {:induction false} JoinLinesAppend(ls: seq<string>, ms: seq<string>)
    ensures JoinLines(ls + ms) == JoinLines(ls) + JoinLines(ms)
    decreases |ms|
  {
    if ms == [] {
      assert ls + ms == ls;
    } else {
      var n := |ms|;
      assert (ls + ms)[..|ls + ms| - 1] == ls + ms[..n - 1];
      JoinLinesAppend(ls, ms[..n - 1]);
    }
  }

  lemma NormalisedAfterNewline(line: string, rest: string)
    ensures Normalised(line + "\n" + rest) == line + "\n" + Normalised(rest)
  {
    var text := line + "\n" + rest;
    if rest != [] {
      assert text[|text| - 1] == rest[|rest| - 1];
      if rest[|rest| - 1] != '\n' {
        assert text + "\n" == line + "\n" + (rest + "\n");
      }
    }
  }

  /** Reading a text line by line and re-joining it only adds a missing final '\n'. */
  lemma {:induction false} JoinLinesOfLines(text: string)
    ensures JoinLines(Lines(text)) == Normalised(text)
    decreases |text|
  {
    if text != [] {
      var k := NewlineIndex(text);
      if k == |text| {
        assert JoinLines([text]) == text + "\n" by { assert [text][..0] == []; }
      } else {
        var line, rest := text[..k], text[k + 1..];
        JoinLinesOfLines(rest);
        JoinLinesCons(line, Lines(rest));
        assert text == line + "\n" + rest;
        NormalisedAfterNewline(line, rest);
      }
    }
  }

  lemma NewlineIndexAfter(a: string, b: string)
    requires '\n' !in a
    ensures NewlineIndex(a + "\n" + b) == |a|
  {
    var t := a + "\n" + b;
    assert t[|a|] == '\n';
  }

  /** Joining lines that hold no '\n' and reading them back gives the same lines. */
  lemma {:induction false} LinesOfJoinLines(ls: seq<string>)
    requires forall i :: 0 <= i < |ls| ==> '\n' !in ls[i]
    ensures Lines(JoinLines(ls)) == ls
    decreases |ls|
  {
    if ls != [] {
      var rest := JoinLines(ls[1..]);
      assert ls == [ls[0]] + ls[1..];
      JoinLinesCons(ls[0], ls[1..]);
      var t := ls[0] + "\n" + rest;
      NewlineIndexAfter(ls[0], rest);
      assert t[..|ls[0]|] == ls[0];
      assert t[|ls[0]| + 1..] == rest;
      LinesOfJoinLines(ls[1..]);
    }
  }
}
