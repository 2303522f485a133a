/** The marker-region assembler: refilling the shared regions of a hand-written document.

    `Assembles` is the reference: a document is a sequence of plain lines and marked regions, and
    assembling replaces the body of every region by its fragment. The index-driven loop of the script
    is proved to find exactly that reading of the document, or an error when there is none. */
module SharedDocs {
  import opened Lines
  import opened Wrappers

  datatype Error =
    | StrayClose(at: nat) | Duplicate(at: nat) | WrongClose(at: nat) | NeverClosed(at: nat)
    | NoClose(at: nat) | NoFragment(slug: string) | EmptyFragment(slug: string)

  datatype Result<+T> = Ok(value: T) | Err(error: Error)

  const OPEN_PREFIX := "<!-- shared:"
  const CLOSE_PREFIX := "<!-- /shared:"
  const SUFFIX := " -->"

  predicate SlugChar(c: char) {
    'a' <= c <= 'z' || '0' <= c <= '9'
  }

  predicate IsSlug(s: string) {
    |s| > 0 && SlugChar(s[0]) && forall i :: 0 < i < |s| ==> SlugChar(s[i]) || s[i] == '-'
  }

  /** The slug of a stripped line of the form prefix, slug, suffix. */
  function Marker(s: string, prefix: string): Option<string> {
    if |s| > |prefix| + |SUFFIX| && s[..|prefix|] == prefix && s[|s| - |SUFFIX|..] == SUFFIX
       && IsSlug(s[|prefix|..|s| - |SUFFIX|])
    then Some(s[|prefix|..|s| - |SUFFIX|]) else None
  }

  function Opens(line: string): Option<string> {
    Marker(Strip(line), OPEN_PREFIX)
  }

  function Closes(line: string): Option<string> {
    Marker(Strip(line), CLOSE_PREFIX)
  }

  predicate Unmarked(line: string) {
    Opens(line) == None && Closes(line) == None
  }

  lemma MarkerChar(line: string)
    ensures Opens(line).Some? ==> |Strip(line)| > 5 && Strip(line)[5] == 's'
    ensures Closes(line).Some? ==> |Strip(line)| > 5 && Strip(line)[5] == '/'
  {
    var s := Strip(line);
    assert Opens(line).Some? ==> s[5] == s[..|OPEN_PREFIX|][5];
    assert Closes(line).Some? ==> s[5] == s[..|CLOSE_PREFIX|][5];
  }

  lemma MarkersExclusive(line: string)
    ensures Opens(line) == None || Closes(line) == None
  {
    MarkerChar(line);
  }

  // ----- fragments ---------------------------------------------------------------------------

  /** Fragment files by slug, as their text. */
  type Fragments = map<string, string>

  function DropBlankHead(lines: seq<string>): seq<string> {
    if |lines| > 0 && Blank(lines[0]) then DropBlankHead(lines[1..]) else lines
  }

  function DropBlankTail(lines: seq<string>): seq<string> {
    if |lines| > 0 && Blank(lines[|lines| - 1]) then DropBlankTail(lines[..|lines| - 1]) else lines
  }

  function FragmentBody(text: string): seq<string> {
    DropBlankTail(DropBlankHead(Split(text)))
  }

  /** A missing or blank fragment cannot be loaded. */
  predicate Loadable(fragments: Fragments, slug: string) {
    slug in fragments && |FragmentBody(fragments[slug])| > 0
  }

  function Body(fragments: Fragments, slug: string): seq<string>
    requires Loadable(fragments, slug)
  {
    FragmentBody(fragments[slug])
  }

  method LoadFragment(fragments: Fragments, slug: string) returns (r: Result<seq<string>>)
    ensures r.Ok? <==> Loadable(fragments, slug)
    ensures r.Ok? ==> r.value == Body(fragments, slug)
    ensures r.Err? ==> r.error == if slug in fragments then EmptyFragment(slug) else NoFragment(slug)
  {
    if slug !in fragments { return Err(NoFragment(slug)); }
    var body := Split(fragments[slug]);
    ghost var lines := body;
    while |body| > 0 && Blank(body[0])
      invariant DropBlankHead(body) == DropBlankHead(lines)
    {
      body := body[1..];
    }
    ghost var kept := body;
    while |body| > 0 && Blank(body[|body| - 1])
      invariant DropBlankTail(body) == DropBlankTail(kept)
    {
      body := body[..|body| - 1];
    }
    return if |body| == 0 then Err(EmptyFragment(slug)) else Ok(body);
  }

  // ----- the reading of a document -------------------------------------------------------------

  datatype Segment =
    | Plain(line: string)
    | Region(open: string, slug: string, body: seq<string>, close: string)

  function SegmentLines(s: Segment): seq<string> {
    match s
    case Plain(line) => [line]
    case Region(open, _, body, close) => [open] + body + [close]
  }

  function Flatten(segments: seq<Segment>): seq<string> {
    if |segments| == 0 then [] else Flatten(segments[..|segments| - 1]) + SegmentLines(segments[|segments| - 1])
  }

  function Slugs(segments: seq<Segment>): set<string> {
    set s | s in segments && s.Region? :: s.slug
  }

  ghost predicate WellFormedSegment(s: Segment) {
    match s
    case Plain(line) => Unmarked(line)
    case Region(open, slug, body, close) =>
      Opens(open) == Some(slug) && Closes(close) == Some(slug) && forall i :: 0 <= i < |body| ==> Unmarked(body[i])
  }

  /** Every segment is well formed and no slug is consumed twice. */
  ghost predicate WellFormed(segments: seq<Segment>) {
    && (forall i :: 0 <= i < |segments| ==> WellFormedSegment(segments[i]))
    && (forall i, j :: 0 <= i < j < |segments| && segments[i].Region? && segments[j].Region? ==>
          segments[i].slug != segments[j].slug)
  }

  ghost predicate AllLoadable(fragments: Fragments, segments: seq<Segment>) {
    forall i :: 0 <= i < |segments| && segments[i].Region? ==> Loadable(fragments, segments[i].slug)
  }

  /** A plain line stays; a region keeps its markers and gets its fragment. */
  function Filled(fragments: Fragments, s: Segment): Segment {
    if s.Region? && Loadable(fragments, s.slug) then s.(body := Body(fragments, s.slug)) else s
  }

  function Refill(fragments: Fragments, segments: seq<Segment>): (r: seq<Segment>)
    ensures |r| == |segments|
    ensures forall i :: 0 <= i < |r| ==> r[i] == Filled(fragments, segments[i])
  {
    seq(|segments|, i requires 0 <= i < |segments| => Filled(fragments, segments[i]))
  }

  ghost predicate Reading(fragments: Fragments, lines: seq<string>, segments: seq<Segment>) {
    WellFormed(segments) && Flatten(segments) == lines && AllLoadable(fragments, segments)
  }

  /** The document `lines`, refilled, is `out`; `consumed` are the slugs of its regions. */
  ghost predicate Assembles(fragments: Fragments, lines: seq<string>, out: seq<string>, consumed: set<string>) {
    exists segments ::
      Reading(fragments, lines, segments) && out == Flatten(Refill(fragments, segments)) && consumed == Slugs(segments)
  }

  lemma {:induction false} FlattenAppend(a: seq<Segment>, b: seq<Segment>)
    ensures Flatten(a + b) == Flatten(a) + Flatten(b)
  {
    hide SegmentLines;
    if |b| == 0 {
      assert a + b == a;
    } else {
      assert (a + b)[..|a + b| - 1] == a + b[..|b| - 1];
      FlattenAppend(a, b[..|b| - 1]);
    }
  }

  lemma FlattenOne(s: Segment)
    ensures Flatten([s]) == SegmentLines(s)
  {
    assert [s][..0] == [];
  }

  /** How a longer reading continues after a prefix of its segments. */
  lemma FlattenFrom(t: seq<Segment>, k: nat)
    requires k < |t|
    ensures Flatten(t) == Flatten(t[..k]) + (SegmentLines(t[k]) + Flatten(t[k + 1..]))
  {
    hide SegmentLines, Flatten;
    var a, b, c := t[..k], [t[k]], t[k + 1..];
    assert t == a + (b + c);
    FlattenAppend(a, b + c);
    FlattenAppend(b, c);
    FlattenOne(t[k]);
  }

  /** `segments` is how every well-formed reading of `lines` begins. */
  ghost predicate Forced(lines: seq<string>, segments: seq<Segment>) {
    forall t :: WellFormed(t) && Flatten(t) == lines ==> segments <= t
  }

  /** `s` lies in `lines` at position `i`. */
  ghost predicate LiesAt(lines: seq<string>, i: nat, s: seq<string>) {
    i + |s| <= |lines| && forall m :: 0 <= m < |s| ==> lines[i + m] == s[m]
  }

  /** If a reading begins with `segments` and lines are left, its next segment starts at the next line. */
  lemma NextSegment(lines: seq<string>, segments: seq<Segment>, t: seq<Segment>)
    requires Flatten(t) == lines && segments <= t && |Flatten(segments)| < |lines|
    ensures |segments| < |t| && LiesAt(lines, |Flatten(segments)|, SegmentLines(t[|segments|]))
  {
    hide SegmentLines, Flatten;
    var k := |segments|;
    assert segments == t[..k] && t[..|t|] == t;
    FlattenFrom(t, k);
  }

  /** The first marker after an opening one, if any: no marker line lies before it. */
  ghost predicate FirstMarker(lines: seq<string>, i: nat, j: nat) {
    i < j <= |lines| && forall k :: i < k < j ==> Unmarked(lines[k])
  }

  lemma ForcedPlain(lines: seq<string>, segments: seq<Segment>)
    requires Forced(lines, segments) && |Flatten(segments)| < |lines|
    requires Unmarked(lines[|Flatten(segments)|])
    ensures Forced(lines, segments + [Plain(lines[|Flatten(segments)|])])
  {
    hide Opens, Closes, Flatten;
    var i := |Flatten(segments)|;
    forall t | WellFormed(t) && Flatten(t) == lines ensures segments + [Plain(lines[i])] <= t {
      NextSegment(lines, segments, t);
      var s := t[|segments|];
      assert WellFormedSegment(s);
      assert SegmentLines(s)[0] == lines[i + 0];
      assert t[..|segments| + 1] == segments + [Plain(lines[i])];
    }
  }

  /** A stray closing marker belongs to no reading. */
  lemma StrayCloseUnreadable(lines: seq<string>, segments: seq<Segment>)
    requires Forced(lines, segments) && |Flatten(segments)| < |lines|
    requires Closes(lines[|Flatten(segments)|]).Some?
    ensures !exists t :: WellFormed(t) && Flatten(t) == lines
  {
    hide Opens, Closes, Flatten;
    var i := |Flatten(segments)|;
    MarkersExclusive(lines[i]);
    forall t | WellFormed(t) ensures Flatten(t) != lines {
      if Flatten(t) == lines {
        NextSegment(lines, segments, t);
        SegmentStartsWithoutClose(lines, i, t[|segments|]);
      }
    }
  }

  lemma SegmentStartsWithoutClose(lines: seq<string>, i: nat, s: Segment)
    requires WellFormedSegment(s) && LiesAt(lines, i, SegmentLines(s)) && i < |lines|
    ensures Closes(lines[i]) == None
  {
    hide Opens, Closes;
    MarkersExclusive(lines[i]);
    assert SegmentLines(s)[0] == lines[i + 0];
  }

  /** An opening marker forces the region that ends at the first marker after it. */
  lemma RegionShape(lines: seq<string>, segments: seq<Segment>, t: seq<Segment>, j: nat)
    requires WellFormed(t) && Flatten(t) == lines && segments <= t && |Flatten(segments)| < |lines|
    requires Opens(lines[|Flatten(segments)|]).Some? && FirstMarker(lines, |Flatten(segments)|, j)
    requires j < |lines| ==> !Unmarked(lines[j])
    ensures |segments| < |t| && j < |lines|
    ensures var i, slug := |Flatten(segments)|, Opens(lines[|Flatten(segments)|]).value;
      Closes(lines[j]) == Some(slug) && t[|segments|] == Region(lines[i], slug, lines[i + 1..j], lines[j])
  {
    hide Opens, Closes, Flatten;
    var i := |Flatten(segments)|;
    NextSegment(lines, segments, t);
    RegionAt(lines, i, t[|segments|], j);
  }

  lemma RegionAt(lines: seq<string>, i: nat, s: Segment, j: nat)
    requires WellFormedSegment(s) && LiesAt(lines, i, SegmentLines(s))
    requires i < |lines| && Opens(lines[i]).Some? && FirstMarker(lines, i, j) && (j < |lines| ==> !Unmarked(lines[j]))
    ensures j < |lines| && Closes(lines[j]) == Opens(lines[i])
    ensures s == Region(lines[i], Opens(lines[i]).value, lines[i + 1..j], lines[j])
  {
    hide Opens, Closes;
    var ls := SegmentLines(s);
    assert ls[0] == lines[i + 0];
    var n := |s.body|;
    var c := i + (n + 1);
    assert ls[n + 1] == lines[c] == s.close;
    forall k | 0 <= k < n ensures lines[i + 1 + k] == s.body[k] { assert ls[k + 1] == lines[i + (k + 1)]; }
    forall k | i < k < c ensures Unmarked(lines[k]) { assert lines[i + 1 + (k - i - 1)] == s.body[k - i - 1]; }
    assert j >= c;
    assert j <= c;
    assert lines[i + 1..j] == s.body;
  }

  lemma ForcedRegion(lines: seq<string>, segments: seq<Segment>, j: nat)
    requires Forced(lines, segments) && |Flatten(segments)| < j < |lines|
    requires Opens(lines[|Flatten(segments)|]).Some? && FirstMarker(lines, |Flatten(segments)|, j) && !Unmarked(lines[j])
    ensures var i := |Flatten(segments)|;
      Forced(lines, segments + [Region(lines[i], Opens(lines[i]).value, lines[i + 1..j], lines[j])])
  {
    hide Opens, Closes, Flatten, FirstMarker;
    var i := |Flatten(segments)|;
    var s := Region(lines[i], Opens(lines[i]).value, lines[i + 1..j], lines[j]);
    forall t | WellFormed(t) && Flatten(t) == lines ensures segments + [s] <= t {
      RegionShape(lines, segments, t, j);
      assert t[..|segments| + 1] == segments + [s];
    }
  }

  /** After an opening marker whose first following marker is not its own close, nothing can be read. */
  lemma BadRegionUnreadable(lines: seq<string>, segments: seq<Segment>, j: nat)
    requires Forced(lines, segments) && |Flatten(segments)| < |lines|
    requires Opens(lines[|Flatten(segments)|]).Some? && FirstMarker(lines, |Flatten(segments)|, j)
    requires j < |lines| ==> !Unmarked(lines[j]) && Closes(lines[j]) != Opens(lines[|Flatten(segments)|])
    ensures !exists t :: WellFormed(t) && Flatten(t) == lines
  {
    hide Opens, Closes, Flatten, FirstMarker;
    forall t | WellFormed(t) ensures Flatten(t) != lines {
      if Flatten(t) == lines { RegionShape(lines, segments, t, j); }
    }
  }

  /** A slug consumed before may not open another region. */
  lemma DuplicateUnreadable(lines: seq<string>, segments: seq<Segment>)
    requires Forced(lines, segments) && |Flatten(segments)| < |lines|
    requires Opens(lines[|Flatten(segments)|]).Some? && Opens(lines[|Flatten(segments)|]).value in Slugs(segments)
    ensures !exists t :: WellFormed(t) && Flatten(t) == lines
  {
    hide Opens, Closes, Flatten;
    var i := |Flatten(segments)|;
    forall t | WellFormed(t) ensures Flatten(t) != lines {
      if Flatten(t) == lines {
        NextSegment(lines, segments, t);
        OpensRegion(lines, i, t[|segments|]);
      }
    }
  }

  lemma OpensRegion(lines: seq<string>, i: nat, s: Segment)
    requires WellFormedSegment(s) && LiesAt(lines, i, SegmentLines(s)) && i < |lines| && Opens(lines[i]).Some?
    ensures s.Region? && Some(s.slug) == Opens(lines[i])
  {
    hide Opens, Closes;
    assert SegmentLines(s)[0] == lines[i + 0];
  }

  /** Appending a well-formed segment with a fresh slug, and what it adds to the output. */
  lemma Extend(fragments: Fragments, segments: seq<Segment>, s: Segment)
    requires WellFormed(segments) && AllLoadable(fragments, segments) && WellFormedSegment(s)
    requires s.Region? ==> s.slug !in Slugs(segments) && Loadable(fragments, s.slug)
    ensures WellFormed(segments + [s]) && AllLoadable(fragments, segments + [s])
    ensures Flatten(segments + [s]) == Flatten(segments) + SegmentLines(s)
    ensures Flatten(Refill(fragments, segments + [s])) == Flatten(Refill(fragments, segments)) + SegmentLines(Filled(fragments, s))
    ensures Slugs(segments + [s]) == Slugs(segments) + if s.Region? then {s.slug} else {}
  {
    hide WellFormedSegment, SegmentLines, Loadable, Filled;
    assert Refill(fragments, segments + [s]) == Refill(fragments, segments) + [Filled(fragments, s)];
    FlattenAppend(segments, [s]);
    FlattenOne(s);
    FlattenAppend(Refill(fragments, segments), [Filled(fragments, s)]);
    FlattenOne(Filled(fragments, s));
    forall i | 0 <= i < |segments + [s]| ensures WellFormedSegment((segments + [s])[i]) {}
    forall i, j | 0 <= i < j < |segments + [s]| && (segments + [s])[i].Region? && (segments + [s])[j].Region?
      ensures (segments + [s])[i].slug != (segments + [s])[j].slug
    {
      if j == |segments| { assert segments[i] in segments; }
    }
    SlugsAppend(segments, s);
  }

  lemma SlugsAppend(segments: seq<Segment>, s: Segment)
    ensures Slugs(segments + [s]) == Slugs(segments) + if s.Region? then {s.slug} else {}
  {
    assert forall x :: x in segments + [s] <==> x in segments || x == s;
  }

  datatype Assembled = Assembled(lines: seq<string>, consumed: set<string>)

  /** What the assembler has read and written when it stands before line `i`. */
  ghost predicate Progress(fragments: Fragments, lines: seq<string>, segments: seq<Segment>, i: nat,
                           out: seq<string>, consumed: set<string>) {
    && i <= |lines| && lines[..i] == Flatten(segments) && |Flatten(segments)| == i
    && WellFormed(segments) && AllLoadable(fragments, segments) && Forced(lines, segments)
    && out == Flatten(Refill(fragments, segments)) && consumed == Slugs(segments)
  }

  lemma PlainProgress(fragments: Fragments, lines: seq<string>, segments: seq<Segment>, i: nat, out: seq<string>, consumed: set<string>)
    requires Progress(fragments, lines, segments, i, out, consumed) && i < |lines| && Unmarked(lines[i])
    ensures Progress(fragments, lines, segments + [Plain(lines[i])], i + 1, out + [lines[i]], consumed)
  {
    hide Opens, Closes, WellFormed, AllLoadable, Flatten, Forced, Refill, Slugs, SegmentLines, Loadable;
    ForcedPlain(lines, segments);
    Extend(fragments, segments, Plain(lines[i]));
    PlainLines(fragments, lines[i]);
    assert lines[..i + 1] == lines[..i] + [lines[i]];
  }

  lemma RegionProgress(fragments: Fragments, lines: seq<string>, segments: seq<Segment>, i: nat, j: nat, out: seq<string>, consumed: set<string>)
    requires Progress(fragments, lines, segments, i, out, consumed) && i < j < |lines|
    requires Opens(lines[i]).Some? && FirstMarker(lines, i, j) && Closes(lines[j]) == Opens(lines[i])
    requires Opens(lines[i]).value !in consumed && Loadable(fragments, Opens(lines[i]).value)
    ensures var slug := Opens(lines[i]).value;
      Progress(fragments, lines, segments + [Region(lines[i], slug, lines[i + 1..j], lines[j])], j + 1,
               out + [lines[i]] + Body(fragments, slug) + [lines[j]], consumed + {slug})
  {
    hide Opens, Closes, WellFormed, AllLoadable, Flatten, Forced, Refill, Slugs, SegmentLines, Loadable, FirstMarker, Body, WellFormedSegment;
    var slug := Opens(lines[i]).value;
    var s := Region(lines[i], slug, lines[i + 1..j], lines[j]);
    ForcedRegion(lines, segments, j);
    RegionWellFormed(lines, i, j);
    Extend(fragments, segments, s);
    RegionLines(fragments, s);
    assert lines[..j + 1] == lines[..i] + ([lines[i]] + lines[i + 1..j] + [lines[j]]);
    assert out + [lines[i]] + Body(fragments, slug) + [lines[j]] == out + ([lines[i]] + Body(fragments, slug) + [lines[j]]);
  }

  lemma NotAssembled(fragments: Fragments, lines: seq<string>)
    requires !exists t :: WellFormed(t) && Flatten(t) == lines
    ensures forall out, consumed :: !Assembles(fragments, lines, out, consumed)
  {
    hide WellFormed, Flatten;
  }

  lemma NotLoaded(fragments: Fragments, lines: seq<string>, segments: seq<Segment>, i: nat, j: nat)
    requires Forced(lines, segments) && |Flatten(segments)| == i < j < |lines|
    requires Opens(lines[i]).Some? && FirstMarker(lines, i, j) && Closes(lines[j]) == Opens(lines[i])
    requires !Loadable(fragments, Opens(lines[i]).value)
    ensures forall out, consumed :: !Assembles(fragments, lines, out, consumed)
  {
    hide Opens, Closes, Forced, Flatten, FirstMarker, Loadable, WellFormed, AllLoadable;
    ForcedRegion(lines, segments, j);
    MissingFragmentUnreadable(fragments, lines, segments, Region(lines[i], Opens(lines[i]).value, lines[i + 1..j], lines[j]));
  }

  /** An error names a place or a slug that is at fault. */
  ghost predicate Explains(fragments: Fragments, lines: seq<string>, e: Error) {
    match e
    case StrayClose(at) => at < |lines| && Closes(lines[at]).Some?
    case Duplicate(at) => at < |lines| && Opens(lines[at]).Some?
    case WrongClose(at) => at < |lines| && Closes(lines[at]).Some?
    case NeverClosed(at) => at < |lines| && Opens(lines[at]).Some?
    case NoClose(at) => at < |lines| && Opens(lines[at]).Some? && FirstMarker(lines, at, |lines|)
    case NoFragment(slug) => slug !in fragments
    case EmptyFragment(slug) => slug in fragments && !Loadable(fragments, slug)
  }

  /** The assembler succeeds exactly on readable documents whose fragments all load, and then refills
      exactly their regions. */
  method Assemble(fragments: Fragments, lines: seq<string>) returns (r: Result<Assembled>)
    ensures r.Ok? ==> Assembles(fragments, lines, r.value.lines, r.value.consumed)
    ensures r.Err? ==> forall out, consumed :: !Assembles(fragments, lines, out, consumed)
    ensures r.Err? ==> Explains(fragments, lines, r.error)
  {
    hide Opens, Closes, WellFormed, AllLoadable, Flatten, Forced, Refill, Slugs, Loadable, FirstMarker, Body, Assembles;
    var out: seq<string>, consumed: set<string>, i := [], {}, 0;
    ghost var segments: seq<Segment> := [];
    NothingYet(fragments, lines);
    while i < |lines|
      invariant Progress(fragments, lines, segments, i, out, consumed)
    {
      var line := lines[i];
      if Opens(line) == None {
        if Closes(line).Some? {
          StrayCloseUnreadable(lines, segments);
          NotAssembled(fragments, lines);
          return Err(StrayClose(i));
        }
        PlainProgress(fragments, lines, segments, i, out, consumed);
        segments := segments + [Plain(line)];
        out := out + [line];
        i := i + 1;
        continue;
      }
      var slug := Opens(line).value;
      if slug in consumed {
        DuplicateUnreadable(lines, segments);
        NotAssembled(fragments, lines);
        return Err(Duplicate(i));
      }
      var found := FindClose(lines, i, slug);
      if found.Err? {
        BadRegionUnreadable(lines, segments, if found.error.NoClose? then |lines| else found.error.at);
        NotAssembled(fragments, lines);
        return Err(found.error);
      }
      var j := found.value;
      var body := LoadFragment(fragments, slug);
      if body.Err? {
        NotLoaded(fragments, lines, segments, i, j);
        return Err(body.error);
      }
      RegionProgress(fragments, lines, segments, i, j, out, consumed);
      segments := segments + [Region(line, slug, lines[i + 1..j], lines[j])];
      out := out + [line] + body.value + [lines[j]];
      consumed := consumed + {slug};
      i := j + 1;
    }
    Finished(fragments, lines, segments, out, consumed);
    return Ok(Assembled(out, consumed));
  }

  lemma Finished(fragments: Fragments, lines: seq<string>, segments: seq<Segment>, out: seq<string>, consumed: set<string>)
    requires Progress(fragments, lines, segments, |lines|, out, consumed)
    ensures Assembles(fragments, lines, out, consumed)
  {
    hide WellFormed, AllLoadable, Flatten, Forced, Refill, Slugs;
    assert lines[..|lines|] == lines;
    assert Reading(fragments, lines, segments);
  }

  /** The inner search: the matching close must be the next marker of any kind. */
  method FindClose(lines: seq<string>, i: nat, slug: string) returns (r: Result<nat>)
    requires i < |lines|
    ensures r.Ok? ==> FirstMarker(lines, i, r.value) && i < r.value < |lines| && Closes(lines[r.value]) == Some(slug)
    ensures r.Err? ==> r.error.NeverClosed? || r.error.WrongClose? || r.error.NoClose?
    ensures r.Err? && r.error.NoClose? ==> r.error.at == i && FirstMarker(lines, i, |lines|)
    ensures r.Err? && r.error.WrongClose? ==> r.error.at < |lines| && Closes(lines[r.error.at]).Some?
    ensures r.Err? && r.error.NeverClosed? ==> r.error.at < |lines| && Opens(lines[r.error.at]).Some?
    ensures r.Err? && !r.error.NoClose? ==>
      FirstMarker(lines, i, r.error.at) && r.error.at < |lines| && !Unmarked(lines[r.error.at]) && Closes(lines[r.error.at]) != Some(slug)
  {
    hide Opens, Closes;
    var j := i + 1;
    while j < |lines|
      invariant FirstMarker(lines, i, j)
    {
      MarkersExclusive(lines[j]);
      if Closes(lines[j]).Some? {
        if Closes(lines[j]).value != slug { return Err(WrongClose(j)); }
        return Ok(j);
      }
      if Opens(lines[j]).Some? { return Err(NeverClosed(j)); }
      j := j + 1;
    }
    return Err(NoClose(i));
  }

  lemma NothingYet(fragments: Fragments, lines: seq<string>)
    ensures Progress(fragments, lines, [], 0, [], {})
  {
  }

  lemma PlainLines(fragments: Fragments, line: string)
    ensures SegmentLines(Plain(line)) == SegmentLines(Filled(fragments, Plain(line))) == [line]
  {
  }

  lemma RegionWellFormed(lines: seq<string>, i: nat, j: nat)
    requires i < j < |lines| && FirstMarker(lines, i, j) && Opens(lines[i]).Some? && Closes(lines[j]) == Opens(lines[i])
    ensures WellFormedSegment(Region(lines[i], Opens(lines[i]).value, lines[i + 1..j], lines[j]))
  {
    hide Opens, Closes;
  }

  lemma RegionLines(fragments: Fragments, s: Segment)
    requires s.Region? && Loadable(fragments, s.slug)
    ensures SegmentLines(s) == [s.open] + s.body + [s.close]
    ensures SegmentLines(Filled(fragments, s)) == [s.open] + Body(fragments, s.slug) + [s.close]
  {
  }

  lemma MissingFragmentUnreadable(fragments: Fragments, lines: seq<string>, segments: seq<Segment>, s: Segment)
    requires s.Region? && !Loadable(fragments, s.slug) && Forced(lines, segments + [s])
    ensures forall t :: !Reading(fragments, lines, t)
  {
    hide Loadable, Flatten;
    forall t ensures !Reading(fragments, lines, t) {
      if Reading(fragments, lines, t) { ReadingLoads(fragments, segments, s, t); }
    }
  }

  lemma ReadingLoads(fragments: Fragments, segments: seq<Segment>, s: Segment, t: seq<Segment>)
    requires s.Region? && segments + [s] <= t && AllLoadable(fragments, t)
    ensures Loadable(fragments, s.slug)
  {
    hide Loadable;
    assert t[|segments|] == (segments + [s])[|segments|];
  }

  // ----- idempotence ---------------------------------------------------------------------------

  /** No fragment contains a marker line. */
  ghost predicate Markerless(fragments: Fragments) {
    forall slug :: Loadable(fragments, slug) ==>
      forall i :: 0 <= i < |Body(fragments, slug)| ==> Unmarked(Body(fragments, slug)[i])
  }

  lemma FilledWellFormed(fragments: Fragments, s: Segment)
    requires Markerless(fragments) && WellFormedSegment(s)
    ensures WellFormedSegment(Filled(fragments, s))
    ensures Filled(fragments, Filled(fragments, s)) == Filled(fragments, s)
  {
    hide Unmarked, Opens, Closes, Body;
  }

  /** A refilled reading is a reading of the refilled document, and refilling it changes nothing. */
  lemma RefillIsReading(fragments: Fragments, segments: seq<Segment>)
    requires Markerless(fragments) && WellFormed(segments) && AllLoadable(fragments, segments)
    ensures var r := Refill(fragments, segments);
      Reading(fragments, Flatten(r), r) && Refill(fragments, r) == r && Slugs(r) == Slugs(segments)
  {
    hide WellFormedSegment, Markerless, Flatten, Loadable;
    var r := Refill(fragments, segments);
    forall i | 0 <= i < |segments|
      ensures WellFormedSegment(r[i]) && Filled(fragments, r[i]) == r[i]
    {
      FilledWellFormed(fragments, segments[i]);
    }
    SameSlugs(fragments, segments);
  }

  lemma SameSlugs(fragments: Fragments, segments: seq<Segment>)
    ensures Slugs(Refill(fragments, segments)) == Slugs(segments)
  {
    hide Loadable, Body;
    var r := Refill(fragments, segments);
    forall x ensures x in Slugs(r) <==> x in Slugs(segments) {
      if x in Slugs(segments) {
        var i :| 0 <= i < |segments| && segments[i].Region? && segments[i].slug == x;
        assert r[i] in r;
      }
      if x in Slugs(r) {
        var i :| 0 <= i < |r| && r[i].Region? && r[i].slug == x;
        assert segments[i] in segments;
      }
    }
  }

  /** A document has one reading, so one assembled form. */
  lemma ReadingUnique(fragments: Fragments, lines: seq<string>, a: seq<Segment>, b: seq<Segment>)
    requires Reading(fragments, lines, a) && Reading(fragments, lines, b)
    ensures a == b
  {
    hide WellFormedSegment, SegmentLines, AllLoadable;
    PrefixForced(lines, a, |a|);
    assert a[..|a|] == a && a <= b;
    if |b| > |a| {
      FlattenFrom(b, |a|);
      assert b[..|a|] == a;
      SegmentNonempty(b[|a|]);
    }
  }

  lemma SegmentNonempty(s: Segment)
    ensures |SegmentLines(s)| > 0
  {
  }

  /** Every prefix of a reading is forced. */
  lemma {:induction false} PrefixForced(lines: seq<string>, a: seq<Segment>, k: nat)
    requires WellFormed(a) && Flatten(a) == lines && k <= |a|
    ensures Forced(lines, a[..k])
  {
    hide WellFormedSegment, SegmentLines, Flatten;
    if k > 0 {
      PrefixForced(lines, a, k - 1);
      FlattenFrom(a, k - 1);
      assert a[..k] == a[..k - 1] + [a[k - 1]];
      SegmentForced(lines, a, k - 1);
    }
  }

  lemma SegmentForced(lines: seq<string>, a: seq<Segment>, k: nat)
    requires WellFormed(a) && Flatten(a) == lines && k < |a| && Forced(lines, a[..k])
    ensures Forced(lines, a[..k] + [a[k]])
  {
    hide Flatten, Opens, Closes, FirstMarker, LiesAt, SegmentLines, Forced;
    var p, s := a[..k], a[k];
    var i := |Flatten(p)|;
    FlattenFrom(a, k);
    SegmentNonempty(s);
    NextSegment(lines, p, a);
    assert WellFormedSegment(s);
    if s.Plain? {
      PlainAt(lines, i, s);
      ForcedPlain(lines, p);
    } else {
      var j := i + (|s.body| + 1);
      RegionFound(lines, i, s, j);
      ForcedRegion(lines, p, j);
    }
  }

  lemma PlainAt(lines: seq<string>, i: nat, s: Segment)
    requires s.Plain? && WellFormedSegment(s) && LiesAt(lines, i, SegmentLines(s))
    ensures i < |lines| && Unmarked(lines[i]) && s == Plain(lines[i])
  {
    hide Opens, Closes;
    assert SegmentLines(s)[0] == lines[i + 0];
  }

  lemma RegionFound(lines: seq<string>, i: nat, s: Segment, j: nat)
    requires s.Region? && WellFormedSegment(s) && LiesAt(lines, i, SegmentLines(s)) && j == i + (|s.body| + 1)
    ensures i < j < |lines| && FirstMarker(lines, i, j) && !Unmarked(lines[j])
    ensures Opens(lines[i]).Some? && s == Region(lines[i], Opens(lines[i]).value, lines[i + 1..j], lines[j])
  {
    hide Opens, Closes;
    var ls := SegmentLines(s);
    assert ls[0] == lines[i + 0] && ls[|s.body| + 1] == lines[j];
    forall m | 0 <= m < |s.body| ensures lines[i + 1 + m] == s.body[m] { assert ls[m + 1] == lines[i + (m + 1)]; }
    forall m | i < m < j ensures Unmarked(lines[m]) { assert lines[i + 1 + (m - i - 1)] == s.body[m - i - 1]; }
    assert lines[i + 1..j] == s.body;
  }

  /** Assembling is deterministic. */
  lemma AssemblesUnique(fragments: Fragments, lines: seq<string>, a: seq<string>, c: set<string>, b: seq<string>, d: set<string>)
    requires Assembles(fragments, lines, a, c) && Assembles(fragments, lines, b, d)
    ensures a == b && c == d
  {
    hide Reading, Flatten, Refill, Slugs;
    var s :| Reading(fragments, lines, s) && a == Flatten(Refill(fragments, s)) && c == Slugs(s);
    var t :| Reading(fragments, lines, t) && b == Flatten(Refill(fragments, t)) && d == Slugs(t);
    ReadingUnique(fragments, lines, s, t);
  }

  /** The assembler accepts its own output and returns it unchanged. */
  lemma AssembleIdempotent(fragments: Fragments, lines: seq<string>, out: seq<string>, consumed: set<string>)
    requires Markerless(fragments) && Assembles(fragments, lines, out, consumed)
    ensures Assembles(fragments, out, out, consumed)
  {
    hide WellFormed, AllLoadable, Flatten, Refill, Slugs, Markerless;
    var s :| Reading(fragments, lines, s) && out == Flatten(Refill(fragments, s)) && consumed == Slugs(s);
    RefillIsReading(fragments, s);
    assert Reading(fragments, out, Refill(fragments, s));
  }

  // ----- whole texts ---------------------------------------------------------------------------

  ghost predicate AssemblesText(fragments: Fragments, text: string, out: string) {
    exists lines, consumed :: |lines| >= 1 && Assembles(fragments, Split(text), lines, consumed) && out == Join(lines)
  }

  lemma {:induction false} DropBlankOneLine(lines: seq<string>)
    requires forall i :: 0 <= i < |lines| ==> OneLine(lines[i])
    ensures forall i :: 0 <= i < |DropBlankHead(lines)| ==> OneLine(DropBlankHead(lines)[i])
    ensures forall i :: 0 <= i < |DropBlankTail(lines)| ==> OneLine(DropBlankTail(lines)[i])
    decreases |lines|
  {
    hide OneLine, Blank;
    if |lines| > 0 {
      if Blank(lines[0]) { DropBlankOneLine(lines[1..]); }
      if Blank(lines[|lines| - 1]) { DropBlankOneLine(lines[..|lines| - 1]); }
    }
  }

  lemma BodyOneLine(fragments: Fragments, slug: string)
    requires Loadable(fragments, slug)
    ensures forall i :: 0 <= i < |Body(fragments, slug)| ==> OneLine(Body(fragments, slug)[i])
  {
    hide OneLine, Blank;
    SplitOneLine(fragments[slug]);
    DropBlankOneLine(Split(fragments[slug]));
    DropBlankOneLine(DropBlankHead(Split(fragments[slug])));
  }

  predicate AllOneLine(lines: seq<string>) {
    forall i :: 0 <= i < |lines| ==> OneLine(lines[i])
  }

  lemma AllOneLineParts(a: seq<string>, b: seq<string>)
    ensures AllOneLine(a + b) <==> AllOneLine(a) && AllOneLine(b)
  {
    hide OneLine;
    assert forall i :: 0 <= i < |a| ==> (a + b)[i] == a[i];
    assert forall i :: 0 <= i < |b| ==> (a + b)[|a| + i] == b[i];
  }

  /** Assembled lines contain no line break. */
  lemma {:induction false} RefilledOneLine(fragments: Fragments, segments: seq<Segment>)
    requires AllOneLine(Flatten(segments))
    ensures AllOneLine(Flatten(Refill(fragments, segments)))
  {
    hide AllOneLine, Filled, SegmentLines;
    var refilled := Refill(fragments, segments);
    if |segments| == 0 {
      assert refilled == segments;
    } else {
      var n := |segments| - 1;
      var a, s := segments[..n], segments[n];
      assert refilled[..n] == Refill(fragments, a) && refilled[n] == Filled(fragments, s);
      AllOneLineParts(Flatten(a), SegmentLines(s));
      RefilledOneLine(fragments, a);
      FilledOneLine(fragments, s);
      AllOneLineParts(Flatten(Refill(fragments, a)), SegmentLines(Filled(fragments, s)));
    }
  }

  lemma FilledOneLine(fragments: Fragments, s: Segment)
    requires AllOneLine(SegmentLines(s))
    ensures AllOneLine(SegmentLines(Filled(fragments, s)))
  {
    hide OneLine, Loadable, Body;
    if s.Region? && Loadable(fragments, s.slug) {
      BodyOneLine(fragments, s.slug);
      assert SegmentLines(s)[0] == s.open && SegmentLines(s)[|s.body| + 1] == s.close;
    }
  }

  /** A write followed by a check finds nothing stale: the written text assembles to itself. */
  lemma CheckPassesAfterWrite(fragments: Fragments, text: string, out: string)
    requires Markerless(fragments) && AssemblesText(fragments, text, out)
    ensures AssemblesText(fragments, out, out)
  {
    hide Assembles, Markerless, Join, Split;
    var lines, consumed :| |lines| >= 1 && Assembles(fragments, Split(text), lines, consumed) && out == Join(lines);
    AssembledOneLine(fragments, text, lines, consumed);
    SplitJoin(lines);
    AssembleIdempotent(fragments, Split(text), lines, consumed);
  }

  lemma AssembledOneLine(fragments: Fragments, text: string, lines: seq<string>, consumed: set<string>)
    requires Assembles(fragments, Split(text), lines, consumed)
    ensures forall i :: 0 <= i < |lines| ==> OneLine(lines[i])
  {
    hide OneLine, Refill, Slugs, WellFormed, AllLoadable, Flatten;
    var s :| Reading(fragments, Split(text), s) && lines == Flatten(Refill(fragments, s)) && consumed == Slugs(s);
    SplitOneLine(text);
    RefilledOneLine(fragments, s);
  }

  // ----- the text of markers, bodies and regions -------------------------------------------------

  /** A marker line is, but for whitespace around it, the opening or closing comment of a slug: small
      letters and digits, and dashes after the first character. */
  lemma MarkerText(line: string, slug: string)
    ensures var ok := slug != "" && slug[0] != '-' && forall i :: 0 <= i < |slug| ==> 'a' <= slug[i] <= 'z' || '0' <= slug[i] <= '9' || slug[i] == '-';
      && (Opens(line) == Some(slug) <==> ok && Strip(line) == "<!-- shared:" + slug + " -->")
      && (Closes(line) == Some(slug) <==> ok && Strip(line) == "<!-- /shared:" + slug + " -->")
  {
    MarkerSpelled(Strip(line), OPEN_PREFIX, slug);
    MarkerSpelled(Strip(line), CLOSE_PREFIX, slug);
    SlugSpelled(slug);
    hide Marker, Strip;
  }

  lemma SlugSpelled(slug: string)
    ensures IsSlug(slug) <==>
      slug != "" && slug[0] != '-' && forall i :: 0 <= i < |slug| ==> 'a' <= slug[i] <= 'z' || '0' <= slug[i] <= '9' || slug[i] == '-'
  {
  }

  lemma MarkerSpelled(s: string, prefix: string, slug: string)
    ensures Marker(s, prefix) == Some(slug) <==> IsSlug(slug) && s == prefix + slug + SUFFIX
  {
    if Marker(s, prefix) == Some(slug) {
      assert s == s[..|prefix|] + s[|prefix|..|s| - |SUFFIX|] + s[|s| - |SUFFIX|..];
    }
    if IsSlug(slug) && s == prefix + slug + SUFFIX {
      assert s[..|prefix|] == prefix && s[|s| - |SUFFIX|..] == SUFFIX && s[|prefix|..|s| - |SUFFIX|] == slug;
    }
  }

  lemma {:induction false} DropHeadExact(lines: seq<string>) returns (a: nat)
    ensures a <= |lines| && DropBlankHead(lines) == lines[a..]
    ensures (forall i :: 0 <= i < a ==> Blank(lines[i])) && (a < |lines| ==> !Blank(lines[a]))
  {
    a := 0;
    if lines != [] && Blank(lines[0]) {
      var b := DropHeadExact(lines[1..]);
      a := b + 1;
      assert forall i :: 0 < i < a ==> lines[i] == lines[1..][i - 1];
    }
  }

  lemma {:induction false} DropTailExact(lines: seq<string>) returns (b: nat)
    ensures b <= |lines| && DropBlankTail(lines) == lines[..b]
    ensures (forall i :: b <= i < |lines| ==> Blank(lines[i])) && (b > 0 ==> !Blank(lines[b - 1]))
  {
    b := |lines|;
    if lines != [] && Blank(lines[|lines| - 1]) {
      b := DropTailExact(lines[..|lines| - 1]);
    }
    assert lines[..|lines|] == lines;
  }

  /** The body of a fragment: its lines from the first to the last that is not blank, none of them if all
      are. */
  lemma BodyExact(text: string) returns (a: nat, b: nat)
    ensures a <= b <= |Split(text)| && FragmentBody(text) == Split(text)[a..b]
    ensures forall i :: 0 <= i < |Split(text)| && !(a <= i < b) ==> Blank(Split(text)[i])
    ensures a < b ==> !Blank(Split(text)[a]) && !Blank(Split(text)[b - 1])
  {
    hide Blank, Split;
    var lines := Split(text);
    a := DropHeadExact(lines);
    var n := DropTailExact(lines[a..]);
    b := a + n;
    forall i | 0 <= i < |lines| && !(a <= i < b) ensures Blank(lines[i]) {
      if i >= b { assert lines[i] == lines[a..][i - a]; }
    }
    if a < b { assert lines[a..][n - 1] == lines[b - 1]; }
  }

  function Plains(lines: seq<string>): (r: seq<Segment>)
    ensures |r| == |lines| && forall i :: 0 <= i < |r| ==> r[i] == Plain(lines[i])
  {
    seq(|lines|, i requires 0 <= i < |lines| => Plain(lines[i]))
  }

  lemma {:induction false} FlattenPlains(lines: seq<string>)
    ensures Flatten(Plains(lines)) == lines
  {
    if lines != [] {
      var n := |lines| - 1;
      assert Plains(lines)[..n] == Plains(lines[..n]);
      FlattenPlains(lines[..n]);
    }
  }

  lemma FlattenAround(before: seq<string>, s: Segment, after: seq<string>)
    ensures Flatten(Plains(before) + [s] + Plains(after)) == before + SegmentLines(s) + after
  {
    hide Flatten, SegmentLines;
    FlattenAppend(Plains(before) + [s], Plains(after));
    FlattenAppend(Plains(before), [s]);
    FlattenOne(s);
    FlattenPlains(before);
    FlattenPlains(after);
  }

  /** A document with one region: the fragment takes the place of what was between the two markers, and
      everything else stays. */
  lemma RegionIsReplaced(fragments: Fragments, before: seq<string>, open: string, slug: string, old_: seq<string>,
                         close: string, after: seq<string>)
    requires forall line :: line in before || line in old_ || line in after ==> Unmarked(line)
    requires Opens(open) == Some(slug) && Closes(close) == Some(slug)
    requires slug in fragments && FragmentBody(fragments[slug]) != []
    ensures Assembles(fragments, before + [open] + old_ + [close] + after,
                      before + [open] + FragmentBody(fragments[slug]) + [close] + after, {slug})
  {
    hide Opens, Closes, FragmentBody, Flatten;
    var s, t := Region(open, slug, old_, close), Region(open, slug, FragmentBody(fragments[slug]), close);
    var segments := Plains(before) + [s] + Plains(after);
    FlattenAround(before, s, after);
    FlattenAround(before, t, after);
    assert Refill(fragments, segments) == Plains(before) + [t] + Plains(after);
    assert before + SegmentLines(s) + after == before + [open] + old_ + [close] + after;
    assert before + SegmentLines(t) + after == before + [open] + FragmentBody(fragments[slug]) + [close] + after;
    assert segments[|before|] == s;
    assert Slugs(segments) == {slug};
    assert Reading(fragments, before + [open] + old_ + [close] + after, segments);
  }
}
