/** The baseline file read back: which keys survive the round trip, and what the check decides. */
module BaselineFacts {
  import opened Wrappers
  import opened Lines
  import opened Baseline

  // ----- headers: the pattern accepts exactly the printed form ---------------------------------

  lemma {:induction false} ColonAt(s: string, n: nat)
    requires n < |s| && s[n] == ':' && forall i :: 0 <= i < n ==> s[i] != ':'
    ensures Colon(s) == n
  {
    if n > 0 {
      ColonAt(s[1..], n - 1);
    }
  }

  lemma {:induction false} CodeStartAt(s: string, n: nat, words: set<char>)
    requires n <= |s| && AllCode(s[n..], words) && n > 0 && !IsCode(s[n - 1], words)
    ensures CodeStart(s, words) == n
  {
    if n < |s| {
      assert s[n..][|s| - 1 - n] == s[|s| - 1];
      var t := s[..|s| - 1];
      assert forall i :: 0 <= i < |t[n..]| ==> t[n..][i] == s[n..][i];
      CodeStartAt(t, n, words);
    }
  }

  lemma MatchTailPrinted(message: string, code: string, words: set<char>)
    requires Words(words)
    requires |code| > 0 && AllCode(code, words)
    ensures MatchTail(message + OPEN + code + "]", words) == Some((message, code))
  {
    var s := message + OPEN + code + "]";
    var t := message + OPEN + code;
    assert s[..|s| - 1] == t;
    var n := |message| + 3;
    assert t[n..] == code && t[n - 3..n] == OPEN && t[..n - 3] == message;
    assert t[n - 1] == t[n - 3..n][2] == '[';
    CodeStartAt(t, n, words);
  }

  lemma MatchTailExact(s: string, words: set<char>)
    ensures var m := MatchTail(s, words);
      m.Some? ==> s == m.value.0 + OPEN + m.value.1 + "]" && |m.value.1| > 0 && AllCode(m.value.1, words)
  {
    if MatchTail(s, words).Some? {
      var t := s[..|s| - 1];
      var n := CodeStart(t, words);
      assert s == t + "]";
      assert t == t[..n - 3] + t[n - 3..n] + t[n..];
    }
  }

  lemma MatchedIsPrinted(line: string, words: set<char>)
    ensures var m := MatchHeader(line, words); m.Some? ==> WellFormedHeader(m.value, words) && line == HeaderLine(m.value)
  {
    if MatchHeader(line, words).Some? {
      var n := Colon(line);
      var tail := line[n + |ERROR|..];
      MatchTailExact(tail, words);
      hide MatchTail, Colon, AllCode, IsSpace;
      Rejoined(line, n, MatchHeader(line, words).value);
    }
  }

  lemma Rejoined(line: string, n: nat, h: Header)
    requires n + |ERROR| <= |line| && ERROR <= line[n..] && h.file == line[..n]
    requires line[n + |ERROR|..] == h.message + OPEN + h.code + "]"
    ensures line == HeaderLine(h)
  {
    var tail := h.message + OPEN + h.code + "]";
    assert line[n..] == ERROR + tail;
    assert line == h.file + (ERROR + tail);
    assert HeaderLine(h) == h.file + (ERROR + tail);
  }

  /** A header line is matched exactly when it is the printed form of a well-formed header, and then as
      that header and no other. */
  lemma MatchHeaderExact(line: string, h: Header, words: set<char>)
    requires Words(words)
    ensures MatchHeader(line, words) == Some(h) <==> WellFormedHeader(h, words) && line == HeaderLine(h)
  {
    if WellFormedHeader(h, words) {
      MatchPrinted(h, words);
    }
    MatchedIsPrinted(line, words);
    hide MatchHeader, WellFormedHeader, HeaderLine;
  }

  lemma MatchPrinted(h: Header, words: set<char>)
    requires Words(words)
    requires WellFormedHeader(h, words)
    ensures MatchHeader(HeaderLine(h), words) == Some(h)
  {
    var line := HeaderLine(h);
    var tail := h.message + OPEN + h.code + "]";
    assert line == h.file + (ERROR + tail);
    var n := |h.file|;
    assert line[..n] == h.file && line[n..] == ERROR + tail && line[n + |ERROR|..] == tail;
    assert forall i :: 0 <= i < n ==> line[i] == h.file[i];
    assert line[n] == (ERROR + tail)[0] == ':';
    ColonAt(line, n);
    MatchTailPrinted(h.message, h.code, words);
  }

  // ----- lines ------------------------------------------------------------------------------------

  lemma {:induction false} UnlinesIsJoin(lines: seq<string>)
    ensures Join(lines + [""]) == Unlines(lines)
    ensures lines != [] ==> Join(lines) + "\n" == Unlines(lines)
  {
    if lines != [] {
      assert (lines + [""])[1..] == lines[1..] + [""];
      UnlinesIsJoin(lines[1..]);
      if |lines| == 1 {
        assert lines[1..] == [];
      }
    }
  }

  lemma {:induction false} LineEndAt(line: string, rest: string)
    requires Unbroken(line)
    ensures LineEnd(line + "\n" + rest) == |line|
  {
    var s := line + "\n" + rest;
    if line != "" {
      assert s[1..] == line[1..] + "\n" + rest && s[0] == line[0];
      LineEndAt(line[1..], rest);
    }
  }

  lemma {:induction false} SplitUnlines(lines: seq<string>)
    requires forall l :: l in lines ==> Unbroken(l)
    ensures SplitLines(Unlines(lines)) == lines
  {
    if lines != [] {
      var rest := Unlines(lines[1..]);
      LineEndAt(lines[0], rest);
      var s := lines[0] + "\n" + rest;
      assert s[..|lines[0]|] == lines[0] && s[|lines[0]| + 1..] == rest;
      assert s[|lines[0]|] == '\n';
      SplitUnlines(lines[1..]);
    }
  }

  /** A key the file can hold. */
  predicate WellFormed(k: Key, words: set<char>) {
    && WellFormedHeader(Header(k.file, k.code, k.message), words)
    && k.file[0] != '#'
    && Unbroken(k.file) && Unbroken(k.message)
    && Stripped(k.source) && Unbroken(k.source)
  }

  lemma {:induction false} DigitsUnbroken(n: nat)
    ensures Unbroken(Digits(n))
    decreases n
  {
    if n >= 10 {
      DigitsUnbroken(n / 10);
    }
  }

  predicate IsComment(line: string) {
    "#" <= line && Unbroken(line)
  }

  lemma CommentsSkipped(preamble: seq<string>, listing: seq<Key>, version: string)
    requires Unbroken(version) && forall l :: l in preamble ==> IsComment(l)
    ensures forall l :: l in Comments(preamble, listing, version) ==> IsComment(l)
  {
    DigitsUnbroken(|listing|);
    DigitsUnbroken(|Files(listing)|);
    CountLine(Digits(|listing|), Digits(|Files(listing)|), if version == "" then "mypy" else version);
    hide IsComment, Digits;
  }

  lemma CountLine(total: string, files: string, version: string)
    requires Unbroken(total) && Unbroken(files) && Unbroken(version)
    ensures IsComment("# " + total + " error(s) in " + files + " file(s); generated by " + version)
  {
    assert Unbroken("# " + total);
    assert Unbroken(" error(s) in " + files);
    assert Unbroken(" file(s); generated by " + version);
    var line := "# " + total + " error(s) in " + files + " file(s); generated by " + version;
    assert line == ("# " + total) + (" error(s) in " + files) + (" file(s); generated by " + version);
  }

  lemma EntryLines(k: Key, words: set<char>)
    requires Words(words)
    requires WellFormed(k, words)
    ensures forall l :: l in FormatEntry(k) ==> Unbroken(l)
  {
    assert forall i :: 0 <= i < |k.code| ==> IsCode(k.code[i], words) && !IsBreak(k.code[i]);
  }

  lemma {:induction false} BodyLines(listing: seq<Key>, words: set<char>)
    requires Words(words)
    requires forall k :: k in listing ==> WellFormed(k, words)
    ensures forall l :: l in Body(listing) ==> Unbroken(l)
    ensures Body(listing) == [] <==> listing == []
  {
    if listing != [] {
      EntryLines(listing[0], words);
      BodyLines(listing[1..], words);
    }
  }

  // ----- parsing ------------------------------------------------------------------------------

  lemma {:induction false} ParseComments(comments: seq<string>, rest: seq<string>, at: nat, words: set<char>)
    requires forall l :: l in comments ==> Skipped(l)
    ensures ParseLines(comments + rest, at, None, multiset{}, words) == ParseLines(rest, at + |comments|, None, multiset{}, words)
    decreases |comments|
  {
    hide Skipped;
    if comments == [] {
      assert comments + rest == rest;
    } else {
      assert (comments + rest)[1..] == comments[1..] + rest;
      ParseComments(comments[1..], rest, at + 1, words);
    }
  }

  lemma HeaderLineIsHeader(k: Key, words: set<char>)
    requires Words(words)
    requires WellFormed(k, words)
    ensures var h := Header(k.file, k.code, k.message);
      var line := HeaderLine(h);
      !Skipped(line) && !(INDENT <= line) && MatchHeader(line, words) == Some(h)
  {
    var h := Header(k.file, k.code, k.message);
    var line := HeaderLine(h);
    assert line[0] == k.file[0];
    MatchHeaderExact(line, h, words);
    assert LStrip(line) == line;
    RStripKeepsFirst(line);
  }

  lemma {:induction false} RStripKeepsFirst(s: string)
    requires s != "" && !IsSpace(s[0])
    ensures RStrip(s) != ""
  {
    if |s| > 1 && IsSpace(s[|s| - 1]) {
      RStripKeepsFirst(s[..|s| - 1]);
    }
  }

  lemma SourceLineIsSource(source: string)
    requires source != "" && Stripped(source)
    ensures var line := INDENT + source;
      !Skipped(line) && INDENT <= line && Strip(line) == source
  {
    var line := INDENT + source;
    assert line[1..] == "   " + source && line[2..] == "  " + source && line[3..] == " " + source && line[4..] == source;
    assert LStrip(line) == LStrip(line[1..]) == LStrip(line[2..]) == LStrip(line[3..]) == LStrip(line[4..]) by {
      assert line[1..][1..] == line[2..] && line[2..][1..] == line[3..] && line[3..][1..] == line[4..];
    }
    StripStripped(source);
  }

  /** One printed entry is read as one key, and completes the entry before it. */
  lemma ParseEntry(k: Key, rest: seq<string>, at: nat, pending: Option<Header>, keys: multiset<Key>, words: set<char>)
    requires Words(words)
    requires WellFormed(k, words)
    ensures var h := Header(k.file, k.code, k.message);
      ParseLines(FormatEntry(k) + rest, at, pending, keys, words) ==
        if k.source == "" then ParseLines(rest, at + 1, Some(h), Flushed(keys, pending, ""), words)
        else ParseLines(rest, at + 2, None, Flushed(keys, pending, "") + multiset{k}, words)
  {
    var h := Header(k.file, k.code, k.message);
    var lines := FormatEntry(k) + rest;
    HeaderLineIsHeader(k, words);
    assert lines[0] == HeaderLine(h);
    if k.source == "" {
      assert lines[1..] == rest;
    } else {
      SourceLineIsSource(k.source);
      assert lines[1..][0] == INDENT + k.source && lines[1..][1..] == rest;
    }
    hide Skipped, MatchHeader, HeaderLine, Strip;
  }

  lemma ParseNothing(at: nat, pending: Option<Header>, keys: multiset<Key>, words: set<char>)
    ensures ParseLines([], at, pending, keys, words) == Ok(Flushed(keys, pending, ""))
  {
  }

  lemma {:induction false} ParseBody(listing: seq<Key>, at: nat, pending: Option<Header>, keys: multiset<Key>, words: set<char>)
    requires Words(words)
    requires forall k :: k in listing ==> WellFormed(k, words)
    ensures ParseLines(Body(listing), at, pending, keys, words) == Ok(Flushed(keys, pending, "") + multiset(listing))
    decreases |listing|
  {
    hide FormatEntry, WellFormed, ParseLines, Flushed;
    if listing == [] {
      assert Body(listing) == [] && multiset(listing) == multiset{};
      ParseNothing(at, pending, keys, words);
    } else {
      var k := listing[0];
      ParseEntry(k, Body(listing[1..]), at, pending, keys, words);
      var before := Flushed(keys, pending, "");
      OneMoreKey(listing, before);
      if k.source == "" {
        ParseBody(listing[1..], at + 1, Some(Header(k.file, k.code, k.message)), before, words);
      } else {
        ParseBody(listing[1..], at + 2, None, before + multiset{k}, words);
      }
    }
  }

  lemma OneMoreKey(listing: seq<Key>, before: multiset<Key>)
    requires listing != []
    ensures var k, rest := listing[0], multiset(listing[1..]);
      && before + multiset{k} + rest == before + multiset(listing)
      && Flushed(before + multiset{k}, None, "") == before + multiset{k}
      && (k.source == "" ==> Flushed(before, Some(Header(k.file, k.code, k.message)), "") == before + multiset{k})
  {
    assert listing == [listing[0]] + listing[1..];
  }

  lemma RenderLines(preamble: seq<string>, listing: seq<Key>, version: string, words: set<char>)
    requires Words(words)
    requires Unbroken(version) && (forall l :: l in preamble ==> IsComment(l)) && forall k :: k in listing ==> WellFormed(k, words)
    ensures var lines := Comments(preamble, listing, version) + if listing == [] then [] else [""] + Body(listing);
      Render(preamble, listing, version) == Unlines(lines) && SplitLines(Render(preamble, listing, version)) == lines
  {
    hide Comments, WellFormed;
    var c := Comments(preamble, listing, version);
    CommentsSkipped(preamble, listing, version);
    BodyLines(listing, words);
    if listing == [] {
      assert c + [""] + [] == c + [""] && c + [] == c;
      UnlinesIsJoin(c);
      SplitUnlines(c);
      assert Unlines(c) + "" == Unlines(c);
    } else {
      var lines := c + ([""] + Body(listing));
      assert c + [""] + Body(listing) == lines;
      UnlinesIsJoin(lines);
      SplitUnlines(lines);
    }
  }

  /** For every multiset of well-formed keys, in whatever order it is printed: reading the file gives the
      multiset back, duplicates and empty sources included. */
  lemma RoundTrip(preamble: seq<string>, listing: seq<Key>, version: string, words: set<char>)
    requires Words(words)
    requires Unbroken(version) && (forall l :: l in preamble ==> IsComment(l)) && forall k :: k in listing ==> WellFormed(k, words)
    ensures Parse(Render(preamble, listing, version), words) == Ok(multiset(listing))
  {
    hide Comments, WellFormed, Render, SplitLines, Body;
    var c := Comments(preamble, listing, version);
    CommentsSkipped(preamble, listing, version);
    RenderLines(preamble, listing, version, words);
    if listing == [] {
      assert c + [] == c;
      ParseComments(c, [], 1, words);
    } else {
      ParseComments(c, [""] + Body(listing), 1, words);
      assert ([""] + Body(listing))[1..] == Body(listing);
      ParseBody(listing, |c| + 2, None, multiset{}, words);
    }
  }

  // ----- what parsing can return ----------------------------------------------------------------

  lemma {:induction false} SplitLinesUnbroken(s: string)
    ensures forall l :: l in SplitLines(s) ==> Unbroken(l)
    decreases |s|
  {
    if s != "" {
      var n := LineEnd(s);
      if n == |s| {
        assert s[..n] == s;
      } else if s[n] == '\r' && n + 1 < |s| && s[n + 1] == '\n' {
        SplitLinesUnbroken(s[n + 2..]);
      } else {
        SplitLinesUnbroken(s[n + 1..]);
      }
    }
  }

  predicate GoodPending(pending: Option<Header>, words: set<char>) {
    pending.Some? ==> WellFormed(Key(pending.value.file, pending.value.code, pending.value.message, ""), words)
  }

  lemma PrintedHeaderGood(h: Header, words: set<char>)
    requires WellFormedHeader(h, words) && Unbroken(HeaderLine(h)) && !("#" <= HeaderLine(h))
    ensures WellFormed(Key(h.file, h.code, h.message, ""), words)
  {
    var line := HeaderLine(h);
    var n := |h.file|;
    assert forall i :: 0 <= i < n ==> h.file[i] == line[i];
    assert forall i :: 0 <= i < |h.message| ==> h.message[i] == line[n + |ERROR| + i];
  }

  lemma MatchedIsGood(line: string, words: set<char>)
    requires Unbroken(line) && !Skipped(line)
    ensures GoodPending(MatchHeader(line, words), words)
  {
    MatchedIsPrinted(line, words);
    hide MatchHeader, HeaderLine, WellFormedHeader, WellFormed, Unbroken, Blank;
    if MatchHeader(line, words).Some? {
      PrintedHeaderGood(MatchHeader(line, words).value, words);
    }
  }

  lemma {:induction false} LStripPart(s: string)
    requires Unbroken(s)
    ensures Unbroken(LStrip(s))
  {
    if s != "" && IsSpace(s[0]) {
      LStripPart(s[1..]);
    }
  }

  lemma {:induction false} RStripPart(s: string)
    requires Unbroken(s)
    ensures Unbroken(RStrip(s))
  {
    if s != "" && IsSpace(s[|s| - 1]) {
      RStripPart(s[..|s| - 1]);
    }
  }

  lemma StripGood(s: string)
    requires Unbroken(s)
    ensures Stripped(Strip(s)) && Unbroken(Strip(s))
  {
    LStripPart(s);
    RStripPart(LStrip(s));
  }

  lemma GoodFlush(pending: Option<Header>, source: string, keys: multiset<Key>, words: set<char>)
    requires GoodPending(pending, words) && Stripped(source) && Unbroken(source) && forall k :: k in keys ==> WellFormed(k, words)
    ensures forall k :: k in Flushed(keys, pending, source) ==> WellFormed(k, words)
  {
  }

  lemma {:induction false} ParsedAreWellFormed(lines: seq<string>, at: nat, pending: Option<Header>, keys: multiset<Key>, words: set<char>)
    requires (forall l :: l in lines ==> Unbroken(l)) && GoodPending(pending, words) && forall k :: k in keys ==> WellFormed(k, words)
    ensures var r := ParseLines(lines, at, pending, keys, words); r.Ok? ==> forall k :: k in r.keys ==> WellFormed(k, words)
    decreases |lines|
  {
    hide WellFormed, Unbroken, Skipped, MatchHeader, GoodPending, Flushed, Strip, Stripped;
    NothingGood(words);
    GoodFlush(pending, "", keys, words);
    if lines != [] {
      var line := lines[0];
      if Skipped(line) {
        ParsedAreWellFormed(lines[1..], at + 1, pending, keys, words);
      } else if INDENT <= line {
        StripGood(line);
        GoodFlush(pending, Strip(line), keys, words);
        ParsedAreWellFormed(lines[1..], at + 1, None, Flushed(keys, pending, Strip(line)), words);
      } else {
        MatchedIsGood(line, words);
        ParsedAreWellFormed(lines[1..], at + 1, MatchHeader(line, words), Flushed(keys, pending, ""), words);
      }
    }
  }

  lemma NothingGood(words: set<char>)
    ensures GoodPending(None, words) && Stripped("") && Unbroken("")
  {
  }

  /** One key survives the round trip if and only if it is well formed; and whatever text is accepted, its
      keys printed in any order read back the same. */
  lemma RoundTripExact(preamble: seq<string>, k: Key, version: string, words: set<char>)
    requires Words(words)
    requires Unbroken(version) && forall l :: l in preamble ==> IsComment(l)
    ensures Parse(Render(preamble, [k], version), words) == Ok(multiset{k}) <==> WellFormed(k, words)
  {
    hide WellFormed, Render, IsComment, Parse;
    if WellFormed(k, words) {
      assert multiset([k]) == multiset{k};
      RoundTrip(preamble, [k], version, words);
    } else {
      ParseGood(Render(preamble, [k], version), words);
      assert k in multiset{k};
    }
  }

  lemma ParseGood(text: string, words: set<char>)
    ensures Parse(text, words).Ok? ==> forall k :: k in Parse(text, words).keys ==> WellFormed(k, words)
  {
    SplitLinesUnbroken(text);
    NothingGood(words);
    ParsedAreWellFormed(SplitLines(text), 1, None, multiset{}, words);
  }

  lemma AcceptedTextReprints(text: string, preamble: seq<string>, listing: seq<Key>, version: string, words: set<char>)
    requires Words(words)
    requires Unbroken(version) && forall l :: l in preamble ==> IsComment(l)
    requires Parse(text, words) == Ok(multiset(listing))
    ensures Parse(Render(preamble, listing, version), words) == Parse(text, words)
  {
    ParseGood(text, words);
    assert forall k :: k in listing ==> k in multiset(listing);
    hide WellFormed, Render, IsComment, Parse;
    RoundTrip(preamble, listing, version, words);
  }

  // ----- the check ----------------------------------------------------------------------------

  /** The check passes exactly when the two multisets are equal. */
  lemma PassesExact(current: multiset<Key>, baseline: multiset<Key>)
    ensures Passes(current, baseline) <==> current == baseline
  {
    if Passes(current, baseline) {
      forall k ensures current[k] == baseline[k] {
        assert (current - baseline)[k] == 0 && (baseline - current)[k] == 0;
      }
    }
  }

  /** After a write of some findings, a check of the same findings passes, and a check of any others,
      be it one copy more or less, fails. */
  lemma WriteThenCheck(preamble: seq<string>, written: seq<Key>, found: seq<Key>, version: string, words: set<char>)
    requires Words(words)
    requires Unbroken(version) && (forall l :: l in preamble ==> IsComment(l)) && forall k :: k in written ==> WellFormed(k, words)
    ensures var r := Parse(Render(preamble, written, version), words);
      r.Ok? && (Passes(multiset(found), r.keys) <==> multiset(found) == multiset(written))
  {
    RoundTrip(preamble, written, version, words);
    PassesExact(multiset(found), multiset(written));
  }

  // ----- in plain text --------------------------------------------------------------------------

  /** What an entry looks like. */
  lemma EntryText(k: Key)
    ensures FormatEntry(k) == [k.file + ": error: " + k.message + "  [" + k.code + "]"]
      + if k.source == "" then [] else ["    " + k.source]
  {
    assert k.file + ERROR + (k.message + OPEN + k.code + "]") == k.file + ": error: " + k.message + "  [" + k.code + "]";
  }

  function DigitValue(c: char): nat {
    if '0' <= c <= '9' then c as int - '0' as int else 0
  }

  function Value(digits: string): nat {
    if digits == "" then 0 else Value(digits[..|digits| - 1]) * 10 + DigitValue(digits[|digits| - 1])
  }

  /** A count is printed in decimal, without leading zeros. */
  lemma {:induction false} DigitsExact(n: nat)
    ensures Value(Digits(n)) == n && Digits(n) != "" && (n > 0 ==> Digits(n)[0] != '0')
    ensures forall i :: 0 <= i < |Digits(n)| ==> '0' <= Digits(n)[i] <= '9'
    decreases n
  {
    var last := ["0123456789"[n % 10]];
    assert last[0] as int == '0' as int + n % 10;
    if n < 10 {
      assert "" + last == last && last[..0] == "";
    } else {
      DigitsExact(n / 10);
      assert (Digits(n / 10) + last)[..|Digits(n / 10)|] == Digits(n / 10);
    }
  }

  /** An error carries the number of the first line that cannot be read: the lines before it can, and with
      it they cannot. */
  lemma {:induction false} FirstBadLine(lines: seq<string>, at: nat, pending: Option<Header>, keys: multiset<Key>, words: set<char>)
    requires ParseLines(lines, at, pending, keys, words).Err?
    ensures var e := ParseLines(lines, at, pending, keys, words).error;
      && at <= e.line < at + |lines|
      && ParseLines(lines[..e.line - at], at, pending, keys, words).Ok?
      && ParseLines(lines[..e.line - at + 1], at, pending, keys, words) == Err(e)
    decreases |lines|
  {
    hide Skipped, MatchHeader, Flushed;
    var e := ParseLines(lines, at, pending, keys, words).error;
    var n := e.line - at;
    var line, rest := lines[0], lines[1..];
    if Skipped(line) {
      FirstBadLine(rest, at + 1, pending, keys, words);
    } else if INDENT <= line {
      if pending.Some? { FirstBadLine(rest, at + 1, None, Flushed(keys, pending, Strip(line)), words); }
    } else if MatchHeader(line, words).Some? {
      FirstBadLine(rest, at + 1, MatchHeader(line, words), Flushed(keys, pending, ""), words);
    }
    if n > 0 {
      assert lines[..n][1..] == rest[..n - 1];
      assert lines[..n + 1][1..] == rest[..n];
    } else {
      assert lines[..1][0] == line;
    }
  }
}
