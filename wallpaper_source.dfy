/**
 * The wallpaper file format: a text whose `#section` marker lines switch
 * between a metadata part and a shader part. A line containing `#section`
 * is a marker; it selects METADATA when it also contains `metadata`,
 * otherwise SHADER when it also contains `shader`, and otherwise nothing
 * (the current section stays). Every other line is copied, followed by
 * one "\n", into the buffer of the current section; before the first
 * recognised marker there is no current section and lines are dropped.
 *
 * `Scan` is the splitter's state after a sequence of lines, step by step
 * as the loader's loop computes it. `SectionFrom` and `SelectedFrom` are
 * an independent description (the last recognised marker decides where a
 * line goes), and the lemmas below connect the two.
 */
module WallpaperSource {
  import opened Wrappers
  import opened Text
  import opened WallpaperTypes

  datatype LineKind = MetadataMarker | ShaderMarker | UnknownMarker | Body

  /** How the loader's loop reads one line. */
  function KindOf(line: string): LineKind
  {
    if Find(line, "#section") == -1 then Body
    else if Find(line, "metadata") != -1 then MetadataMarker
    else if Find(line, "shader") != -1 then ShaderMarker
    else UnknownMarker
  }

  /**
   * A line is a marker exactly when it contains `#section`; a marker that
   * mentions `metadata` selects metadata even when it also mentions
   * `shader`; it selects the shader only when it mentions `shader` and not
   * `metadata`.
   */
  lemma KindOfMeaning(line: string)
    ensures KindOf(line) == Body <==> !Contains(line, "#section")
    ensures KindOf(line) == MetadataMarker <==> Contains(line, "#section") && Contains(line, "metadata")
    ensures KindOf(line) == ShaderMarker <==>
      Contains(line, "#section") && !Contains(line, "metadata") && Contains(line, "shader")
  {
    FindFirst(line, "#section");
    FindFirst(line, "metadata");
    FindFirst(line, "shader");
  }

  /** A marker line that names a section. */
  predicate Recognised(k: LineKind)
  {
    k == MetadataMarker || k == ShaderMarker
  }

  /** The section a recognised marker selects. */
  function Selects(k: LineKind): (s: WallpaperSection)
    requires Recognised(k)
    ensures s != NONE
  {
    if k == MetadataMarker then METADATA else SHADER
  }

  /** The splitter's loop variables: `type`, `foundShaderSection` and the two buffers `ss[2]`. */
  datatype ScanState = ScanState(section: WallpaperSection, foundShader: bool, buffers: seq<string>)

  function InitialScan(): ScanState
  {
    ScanState(NONE, false, ["", ""])
  }

  /** One iteration of the splitter's loop. */
  function Step(st: ScanState, line: string): (r: ScanState)
    requires |st.buffers| == 2
    ensures |r.buffers| == 2
  {
    match KindOf(line)
    case MetadataMarker => st.(section := METADATA)
    case ShaderMarker => st.(section := SHADER, foundShader := true)
    case UnknownMarker => st
    case Body =>
      if st.section == NONE then st
      else
        var i := BufferIndex(st.section);
        st.(buffers := st.buffers[i := st.buffers[i] + line + "\n"])
  }

  /** The loop state after reading `lines`. */
  function Scan(lines: seq<string>): (st: ScanState)
    decreases |lines|
    ensures |st.buffers| == 2
  {
    if lines == [] then InitialScan() else Step(Scan(lines[..|lines| - 1]), lines[|lines| - 1])
  }

  /**
   * What reading a wallpaper file yields: nothing when it cannot be opened
   * (`None`) or holds no shader marker, else the metadata and shader texts.
   */
  function SplitWallpaperFile(file: Option<string>): Option<WallpaperSources>
  {
    match file
    case None => None
    case Some(text) =>
      var st := Scan(Lines(text));
      if st.foundShader then Some(SourcesOf(st.buffers)) else None
  }

  // ---- the reference description ----

  /** The section in force after `lines` when `start` was in force before: that of the last recognised marker. */
  function SectionFrom(start: WallpaperSection, lines: seq<string>): WallpaperSection
    decreases |lines|
  {
    if lines == [] then start
    else
      var k := KindOf(lines[|lines| - 1]);
      if Recognised(k) then Selects(k) else SectionFrom(start, lines[..|lines| - 1])
  }

  /** The body lines of `lines` that fall in section `s`, in order. */
  function SelectedFrom(start: WallpaperSection, lines: seq<string>, s: WallpaperSection): seq<string>
    decreases |lines|
  {
    if lines == [] then []
    else
      var prefix := lines[..|lines| - 1];
      var last := lines[|lines| - 1];
      SelectedFrom(start, prefix, s) +
      (if KindOf(last) == Body && SectionFrom(start, prefix) == s then [last] else [])
  }

  function Selected(lines: seq<string>, s: WallpaperSection): seq<string>
  {
    SelectedFrom(NONE, lines, s)
  }

  ghost predicate HasShaderMarker(lines: seq<string>)
  {
    exists i :: 0 <= i < |lines| && KindOf(lines[i]) == ShaderMarker
  }

  ghost predicate HasRecognisedMarker(lines: seq<string>)
  {
    exists i :: 0 <= i < |lines| && Recognised(KindOf(lines[i]))
  }

  lemma JoinLinesSnoc(ls: seq<string>, l: string)
    ensures JoinLines(ls + [l]) == JoinLines(ls) + l + "\n"
  {
    assert (ls + [l])[..|ls|] == ls;
  }

  lemma {:induction false} ScanSection(lines: seq<string>)
    ensures Scan(lines).section == SectionFrom(NONE, lines)
    decreases |lines|
  {
    if lines != [] {
      ScanSection(lines[..|lines| - 1]);
    }
  }

  lemma StepFound(st: ScanState, line: string)
    requires |st.buffers| == 2
    ensures Step(st, line).foundShader == (st.foundShader || KindOf(line) == ShaderMarker)
  {
  }

  lemma HasShaderMarkerSnoc(lines: seq<string>)
    requires lines != []
    ensures HasShaderMarker(lines) <==>
      HasShaderMarker(lines[..|lines| - 1]) || KindOf(lines[|lines| - 1]) == ShaderMarker
  {
    var n := |lines| - 1;
    var prefix := lines[..n];
    if HasShaderMarker(prefix) {
      var i :| 0 <= i < |prefix| && KindOf(prefix[i]) == ShaderMarker;
      assert lines[i] == prefix[i];
    }
    if HasShaderMarker(lines) {
      var i :| 0 <= i < |lines| && KindOf(lines[i]) == ShaderMarker;
      if i < n {
        assert prefix[i] == lines[i];
      }
    }
  }

  lemma {:induction false} ScanFound(lines: seq<string>)
    ensures Scan(lines).foundShader <==> HasShaderMarker(lines)
    decreases |lines|
  {
    if lines != [] {
      var n := |lines| - 1;
      ScanFound(lines[..n]);
      StepFound(Scan(lines[..n]), lines[n]);
      HasShaderMarkerSnoc(lines);
    }
  }

  /** One line adds its text and a "\n" to the buffer of the current section, if it is a body line. */
  lemma StepBuffers(st: ScanState, line: string)
    requires |st.buffers| == 2
    ensures Step(st, line).buffers == [
      st.buffers[0] + JoinLines(if KindOf(line) == Body && st.section == METADATA then [line] else []),
      st.buffers[1] + JoinLines(if KindOf(line) == Body && st.section == SHADER then [line] else [])]
  {
    assert [line][..0] == [];
    assert JoinLines([line]) == line + "\n";
    assert st.buffers == [st.buffers[0], st.buffers[1]];
    assert st.buffers[0] + JoinLines([]) == st.buffers[0];
    assert st.buffers[1] + JoinLines([]) == st.buffers[1];
    if KindOf(line) == Body && st.section != NONE {
      var i := BufferIndex(st.section);
      assert st.buffers[i] + line + "\n" == st.buffers[i] + JoinLines([line]);
      if i == 0 {
        assert Step(st, line).buffers == [st.buffers[0] + JoinLines([line]), st.buffers[1]];
      } else {
        assert Step(st, line).buffers == [st.buffers[0], st.buffers[1] + JoinLines([line])];
      }
    }
  }

  lemma {:induction false} ScanBuffers(lines: seq<string>)
    ensures Scan(lines).buffers == [JoinLines(Selected(lines, METADATA)), JoinLines(Selected(lines, SHADER))]
    decreases |lines|
  {
    if lines != [] {
      var n := |lines| - 1;
      var prefix, last := lines[..n], lines[n];
      ScanBuffers(prefix);
      ScanSection(prefix);
      var st := Scan(prefix);
      var extraMeta := if KindOf(last) == Body && st.section == METADATA then [last] else [];
      var extraShader := if KindOf(last) == Body && st.section == SHADER then [last] else [];
      assert Selected(lines, METADATA) == Selected(prefix, METADATA) + extraMeta;
      assert Selected(lines, SHADER) == Selected(prefix, SHADER) + extraShader;
      JoinLinesAppend(Selected(prefix, METADATA), extraMeta);
      JoinLinesAppend(Selected(prefix, SHADER), extraShader);
      StepBuffers(st, last);
    }
  }

  /** The loop computes the reference description: section, shader flag and both buffers. */
  lemma ScanIsReference(lines: seq<string>)
    ensures Scan(lines).section == SectionFrom(NONE, lines)
    ensures Scan(lines).foundShader <==> HasShaderMarker(lines)
    ensures Scan(lines).buffers == [JoinLines(Selected(lines, METADATA)), JoinLines(Selected(lines, SHADER))]
  {
    ScanSection(lines);
    ScanFound(lines);
    ScanBuffers(lines);
  }

  /** No section is in force as long as no recognised marker has been read. */
  lemma {:induction false} NoSectionBeforeMarker(start: WallpaperSection, lines: seq<string>)
    ensures SectionFrom(start, lines) == start || HasRecognisedMarker(lines)
    ensures !HasRecognisedMarker(lines) ==> SectionFrom(start, lines) == start
    decreases |lines|
  {
    if lines != [] {
      var n := |lines| - 1;
      NoSectionBeforeMarker(start, lines[..n]);
      if HasRecognisedMarker(lines[..n]) {
        var i :| 0 <= i < n && Recognised(KindOf(lines[..n][i]));
        assert lines[i] == lines[..n][i];
      }
      if !HasRecognisedMarker(lines) {
        assert !Recognised(KindOf(lines[n]));
        forall i | 0 <= i < n ensures !Recognised(KindOf(lines[..n][i])) {
          assert lines[..n][i] == lines[i];
        }
      }
    }
  }

  lemma {:induction false} SectionFromConcat(start: WallpaperSection, pre: seq<string>, post: seq<string>)
    ensures SectionFrom(start, pre + post) == SectionFrom(SectionFrom(start, pre), post)
    decreases |post|
  {
    if post == [] {
      assert pre + post == pre;
    } else {
      var n := |post| - 1;
      assert (pre + post)[..|pre + post| - 1] == pre + post[..n];
      assert (pre + post)[|pre + post| - 1] == post[n];
      SectionFromConcat(start, pre, post[..n]);
    }
  }

  lemma {:induction false} SelectedFromConcat(start: WallpaperSection, pre: seq<string>, post: seq<string>, s: WallpaperSection)
    ensures SelectedFrom(start, pre + post, s) == SelectedFrom(start, pre, s) + SelectedFrom(SectionFrom(start, pre), post, s)
    decreases |post|
  {
    if post == [] {
      assert pre + post == pre;
    } else {
      var n := |post| - 1;
      assert (pre + post)[..|pre + post| - 1] == pre + post[..n];
      assert (pre + post)[|pre + post| - 1] == post[n];
      SelectedFromConcat(start, pre, post[..n], s);
      SectionFromConcat(start, pre, post[..n]);
    }
  }

  /** After a recognised marker, what is selected no longer depends on the section in force before it. */
  lemma SelectedAfterMarker(a: WallpaperSection, b: WallpaperSection, post: seq<string>, s: WallpaperSection)
    requires post != [] && Recognised(KindOf(post[0]))
    ensures SelectedFrom(a, post, s) == SelectedFrom(b, post, s)
  {
    assert post == [post[0]] + post[1..];
    SelectedFromConcat(a, [post[0]], post[1..], s);
    SelectedFromConcat(b, [post[0]], post[1..], s);
    assert [post[0]][..0] == [];
  }

  /**
   * Repeated sections concatenate: splitting a file that continues with a
   * recognised marker yields the first part's buffers followed by the
   * second part's.
   */
  lemma SplitConcat(pre: seq<string>, post: seq<string>)
    requires post != [] && Recognised(KindOf(post[0]))
    ensures Scan(pre + post).buffers[0] == Scan(pre).buffers[0] + Scan(post).buffers[0]
    ensures Scan(pre + post).buffers[1] == Scan(pre).buffers[1] + Scan(post).buffers[1]
  {
    ScanBuffers(pre + post);
    ScanBuffers(pre);
    ScanBuffers(post);
    SelectedFromConcat(NONE, pre, post, METADATA);
    SelectedFromConcat(NONE, pre, post, SHADER);
    SelectedAfterMarker(SectionFrom(NONE, pre), NONE, post, METADATA);
    SelectedAfterMarker(SectionFrom(NONE, pre), NONE, post, SHADER);
    JoinLinesAppend(Selected(pre, METADATA), Selected(post, METADATA));
    JoinLinesAppend(Selected(pre, SHADER), Selected(post, SHADER));
  }

  lemma {:induction false} NothingSelectedFromNone(lines: seq<string>, s: WallpaperSection)
    requires s != NONE && !HasRecognisedMarker(lines)
    ensures SelectedFrom(NONE, lines, s) == []
    decreases |lines|
  {
    if lines != [] {
      var n := |lines| - 1;
      forall i | 0 <= i < n ensures !Recognised(KindOf(lines[..n][i])) {
        assert lines[..n][i] == lines[i];
      }
      NothingSelectedFromNone(lines[..n], s);
      NoSectionBeforeMarker(NONE, lines[..n]);
    }
  }

  /** Lines read before the first recognised marker reach neither buffer. */
  lemma DroppedBeforeFirstMarker(pre: seq<string>, post: seq<string>)
    requires !HasRecognisedMarker(pre)
    ensures Scan(pre + post).buffers == Scan(post).buffers
  {
    ScanBuffers(pre + post);
    ScanBuffers(post);
    NoSectionBeforeMarker(NONE, pre);
    forall s | s == METADATA || s == SHADER
      ensures Selected(pre + post, s) == Selected(post, s)
    {
      SelectedFromConcat(NONE, pre, post, s);
      NothingSelectedFromNone(pre, s);
      assert [] + Selected(post, s) == Selected(post, s);
    }
  }

  /** Every selected line is a line of the input that is not a marker. */
  lemma {:induction false} SelectedAreBodyLines(start: WallpaperSection, lines: seq<string>, s: WallpaperSection)
    ensures forall j :: 0 <= j < |SelectedFrom(start, lines, s)| ==>
      SelectedFrom(start, lines, s)[j] in lines && !Contains(SelectedFrom(start, lines, s)[j], "#section")
    decreases |lines|
  {
    if lines != [] {
      var n := |lines| - 1;
      SelectedAreBodyLines(start, lines[..n], s);
      KindOfMeaning(lines[n]);
      forall l | l in lines[..n] ensures l in lines {
        var i :| 0 <= i < n && lines[..n][i] == l;
        assert lines[i] == l;
      }
    }
  }

  /**
   * The splitter's result: it fails exactly when the file cannot be opened
   * or has no shader marker; otherwise each output holds the lines selected
   * for its section, each followed by "\n", and reading an output back line
   * by line gives exactly those lines, none of them a marker.
   */
  lemma SplitWallpaperFileSpec(file: Option<string>)
    ensures SplitWallpaperFile(file).Some? <==> file.Some? && HasShaderMarker(Lines(file.value))
    ensures SplitWallpaperFile(file).Some? ==>
      var lines := Lines(file.value);
      var r := SplitWallpaperFile(file).value;
      r.metadataYamlSource == JoinLines(Selected(lines, METADATA)) &&
      r.fragmentShaderSource == JoinLines(Selected(lines, SHADER)) &&
      Lines(r.metadataYamlSource) == Selected(lines, METADATA) &&
      Lines(r.fragmentShaderSource) == Selected(lines, SHADER) &&
      (forall l :: l in Lines(r.metadataYamlSource) + Lines(r.fragmentShaderSource) ==> !Contains(l, "#section"))
  {
    if file.Some? {
      var lines := Lines(file.value);
      ScanIsReference(lines);
      SelectedAreBodyLines(NONE, lines, METADATA);
      SelectedAreBodyLines(NONE, lines, SHADER);
      LinesOfJoinLines(Selected(lines, METADATA));
      LinesOfJoinLines(Selected(lines, SHADER));
    }
  }
}
