/** The mypy baseline file: printing a multiset of accepted errors, reading it back, and the check. */
module Baseline {
  import opened Wrappers
  import opened Lines

  /** One accepted error; the source line is stripped and may be empty. */
  datatype Key = Key(file: string, code: string, message: string, source: string)

  datatype Error = SourceWithoutHeader(line: nat) | Unparseable(line: nat)

  datatype Result = Ok(keys: multiset<Key>) | Err(error: Error)

  datatype Header = Header(file: string, code: string, message: string)

  const INDENT := "    "
  const ERROR := ": error: "
  const OPEN := "  ["

  // ----- lines as `str.splitlines` sees them --------------------------------------------------

  predicate IsBreak(c: char) {
    var n := c as int;
    10 <= n <= 13 || 28 <= n <= 30 || n == 0x85 || n == 0x2028 || n == 0x2029
  }

  predicate Unbroken(s: string) {
    forall i :: 0 <= i < |s| ==> !IsBreak(s[i])
  }

  /** Length of the first line. */
  function LineEnd(s: string): (n: nat)
    ensures n <= |s| && Unbroken(s[..n]) && (n < |s| ==> IsBreak(s[n]))
  {
    if s == "" || IsBreak(s[0]) then 0 else
      var n := LineEnd(s[1..]) + 1;
      assert s[..n] == [s[0]] + s[1..][..n - 1];
      n
  }

  function SplitLines(s: string): seq<string>
    decreases |s|
  {
    if s == "" then []
    else
      var n := LineEnd(s);
      if n == |s| then [s]
      else if s[n] == '\r' && n + 1 < |s| && s[n + 1] == '\n' then [s[..n]] + SplitLines(s[n + 2..])
      else [s[..n]] + SplitLines(s[n + 1..])
  }

  function Unlines(lines: seq<string>): string {
    if lines == [] then "" else lines[0] + "\n" + Unlines(lines[1..])
  }

  // ----- one entry --------------------------------------------------------------------------------

  function HeaderLine(h: Header): string {
    h.file + ERROR + (h.message + OPEN + h.code + "]")
  }

  function FormatEntry(k: Key): seq<string> {
    [HeaderLine(Header(k.file, k.code, k.message))] + if k.source == "" then [] else [INDENT + k.source]
  }

  /** What may stand for the word characters beyond ASCII: any characters above it that end no line. */
  predicate Words(words: set<char>) {
    forall c :: c in words ==> c as int >= 0x80 && !IsBreak(c)
  }

  /** A character of an error code. */
  predicate IsCode(c: char, words: set<char>) {
    'a' <= c <= 'z' || 'A' <= c <= 'Z' || '0' <= c <= '9' || c == '_' || c == '-' || c in words
  }

  predicate AllCode(s: string, words: set<char>) {
    forall i :: 0 <= i < |s| ==> IsCode(s[i], words)
  }

  predicate WellFormedHeader(h: Header, words: set<char>) {
    && |h.file| > 0 && !IsSpace(h.file[0]) && (forall i :: 0 <= i < |h.file| ==> h.file[i] != ':')
    && |h.code| > 0 && AllCode(h.code, words)
  }

  /** Position of the first colon, or the length. */
  function Colon(s: string): (n: nat)
    ensures n <= |s| && (n < |s| ==> s[n] == ':') && forall i :: 0 <= i < n ==> s[i] != ':'
  {
    if s == "" || s[0] == ':' then 0 else Colon(s[1..]) + 1
  }

  /** Start of the longest run of code characters at the end. */
  function CodeStart(s: string, words: set<char>): (n: nat)
    ensures n <= |s| && AllCode(s[n..], words) && (n > 0 ==> !IsCode(s[n - 1], words))
  {
    if s == "" || !IsCode(s[|s| - 1], words) then |s|
    else
      var n := CodeStart(s[..|s| - 1], words);
      assert forall i :: n <= i < |s| - 1 ==> s[i] == s[..|s| - 1][n..][i - n];
      n
  }

  /** What follows `: error: `, split before its bracketed code. */
  function MatchTail(s: string, words: set<char>): Option<(string, string)> {
    if s == "" || s[|s| - 1] != ']' then None
    else
      var t := s[..|s| - 1];
      var n := CodeStart(t, words);
      if n == |t| || n < 3 || t[n - 3..n] != OPEN then None else Some((t[..n - 3], t[n..]))
  }

  /** The header pattern of the script. */
  function MatchHeader(line: string, words: set<char>): Option<Header> {
    var n := Colon(line);
    if n == 0 || n == |line| || IsSpace(line[0]) || !(ERROR <= line[n..]) then None
    else match MatchTail(line[n + |ERROR|..], words)
      case None => None
      case Some(p) => Some(Header(line[..n], p.1, p.0))
  }

  // ----- the file -----------------------------------------------------------------------------

  function Digits(n: nat): string
    decreases n
  {
    (if n < 10 then "" else Digits(n / 10)) + ["0123456789"[n % 10]]
  }

  function Files(listing: seq<Key>): set<string> {
    set k | k in listing :: k.file
  }

  /** The comment block: fixed lines that start with `#`, then the line that counts the entries and the
      files and names the mypy version. */
  function Comments(preamble: seq<string>, listing: seq<Key>, version: string): seq<string> {
    preamble
    + ["# " + Digits(|listing|) + " error(s) in " + Digits(|Files(listing)|) + " file(s); generated by "
       + if version == "" then "mypy" else version]
  }

  function Body(listing: seq<Key>): seq<string> {
    if listing == [] then [] else FormatEntry(listing[0]) + Body(listing[1..])
  }

  /** `listing` is the multiset of keys in the order they are printed. */
  function Render(preamble: seq<string>, listing: seq<Key>, version: string): string {
    Join(Comments(preamble, listing, version) + [""] + Body(listing)) + if Body(listing) == [] then "" else "\n"
  }

  function Flushed(keys: multiset<Key>, pending: Option<Header>, source: string): multiset<Key> {
    match pending
    case None => keys
    case Some(h) => keys + multiset{Key(h.file, h.code, h.message, source)}
  }

  predicate Skipped(line: string) {
    Blank(line) || "#" <= line
  }

  function ParseLines(lines: seq<string>, at: nat, pending: Option<Header>, keys: multiset<Key>, words: set<char>): Result
    decreases |lines|
  {
    if lines == [] then Ok(Flushed(keys, pending, ""))
    else if Skipped(lines[0]) then ParseLines(lines[1..], at + 1, pending, keys, words)
    else if INDENT <= lines[0] then
      if pending.None? then Err(SourceWithoutHeader(at))
      else ParseLines(lines[1..], at + 1, None, Flushed(keys, pending, Strip(lines[0])), words)
    else match MatchHeader(lines[0], words)
      case None => Err(Unparseable(at))
      case Some(h) => ParseLines(lines[1..], at + 1, Some(h), Flushed(keys, pending, ""), words)
  }

  function Parse(text: string, words: set<char>): Result {
    ParseLines(SplitLines(text), 1, None, multiset{}, words)
  }

  method RenderBaseline(preamble: seq<string>, listing: seq<Key>, version: string) returns (text: string)
    ensures text == Render(preamble, listing, version)
  {
    hide Comments;
    var body: seq<string> := [];
    for i := 0 to |listing|
      invariant body + Body(listing[i..]) == Body(listing)
    {
      assert listing[i..][1..] == listing[i + 1..];
      assert body + (FormatEntry(listing[i]) + Body(listing[i + 1..])) == body + FormatEntry(listing[i]) + Body(listing[i + 1..]);
      body := body + FormatEntry(listing[i]);
    }
    assert body + [] == body;
    text := Join(Comments(preamble, listing, version) + [""] + body) + if body == [] then "" else "\n";
  }

  method ParseBaseline(text: string, words: set<char>) returns (r: Result)
    ensures r == Parse(text, words)
  {
    hide Skipped, MatchHeader, SplitLines;
    var lines := SplitLines(text);
    var keys: multiset<Key> := multiset{};
    var pending: Option<Header> := None;
    for i := 0 to |lines|
      invariant ParseLines(lines[i..], i + 1, pending, keys, words) == Parse(text, words)
    {
      assert lines[i..][1..] == lines[i + 1..];
      var line := lines[i];
      if Skipped(line) {
        continue;
      }
      if INDENT <= line {
        if pending.None? {
          return Err(SourceWithoutHeader(i + 1));
        }
        keys := Flushed(keys, pending, Strip(line));
        pending := None;
        continue;
      }
      keys := Flushed(keys, pending, "");
      pending := MatchHeader(line, words);
      if pending.None? {
        return Err(Unparseable(i + 1));
      }
    }
    return Ok(Flushed(keys, pending, ""));
  }

  /** The check: nothing new and nothing stale. */
  predicate Passes(current: multiset<Key>, baseline: multiset<Key>) {
    current - baseline == multiset{} && baseline - current == multiset{}
  }
}
