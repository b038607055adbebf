/**
 The env file of the scripts: `load_env` and `update_env_file`, as transformations of text. Files
 are lines of `KEY=VALUE`; a later line for a key wins.
 */
module EnvFile {
  import opened Wrappers
  import opened Whitespace

  // -- Characters ---------------------------------------------------------------------------

  predicate IsDigit(c: char) { '0' <= c <= '9' }

  predicate IsWord(c: char) { 'a' <= c <= 'z' || 'A' <= c <= 'Z' || c == '_' || IsDigit(c) }

  predicate OneLine(s: string) { forall c :: c in s ==> !IsSeparator(c) }

  /** A key the updater knows: a letter or underscore, then letters, digits and underscores. */
  predicate IsIdentifier(s: string) {
    s != [] && !IsDigit(s[0]) && forall i :: 0 <= i < |s| ==> IsWord(s[i])
  }

  // -- Lines and text -----------------------------------------------------------------------

  /** The first line of a text, up to its separator. */
  function LineLength(text: string): (n: nat)
    ensures n <= |text| && (n < |text| ==> IsSeparator(text[n]))
    ensures forall i :: 0 <= i < n ==> !IsSeparator(text[i])
  {
    if text == [] || IsSeparator(text[0]) then 0 else 1 + LineLength(text[1..])
  }

  /** The lines of a text; a separator at its end makes no further line. */
  function SplitLines(text: string): (lines: seq<string>)
    ensures forall i :: 0 <= i < |lines| ==> OneLine(lines[i])
    decreases |text|
  {
    if text == [] then []
    else
      var n := LineLength(text);
      if n == |text| then [text]
      else
        var width := if text[n] == '\r' && n + 1 < |text| && text[n + 1] == '\n' then 2 else 1;
        [text[..n]] + SplitLines(text[n + width..])
  }

  function JoinLines(lines: seq<string>, newline: string): string {
    if lines == [] then [] else lines[0] + newline + JoinLines(lines[1..], newline)
  }

  predicate HasCrLf(text: string) {
    exists i :: 0 <= i < |text| - 1 && text[i] == '\r' && text[i + 1] == '\n'
  }

  function NewlineOf(text: string): string {
    if HasCrLf(text) then "\r\n" else "\n"
  }

  predicate OneLineEach(lines: seq<string>) {
    forall i :: 0 <= i < |lines| ==> OneLine(lines[i])
  }

  lemma {:induction false} LineLengthAt(line: string, rest: string)
    requires OneLine(line) && rest != [] && IsSeparator(rest[0])
    ensures LineLength(line + rest) == |line|
  {
    if line != [] {
      LineLengthAt(line[1..], rest);
      assert (line + rest)[1..] == line[1..] + rest;
    }
  }

  lemma SplitFirst(line: string, newline: string, rest: string)
    requires OneLine(line) && (newline == "\n" || newline == "\r\n")
    ensures SplitLines(line + newline + rest) == [line] + SplitLines(rest)
  {
    var text := line + newline + rest;
    assert text == line + (newline + rest);
    LineLengthAt(line, newline + rest);
    assert text[..|line|] == line;
    assert text[|line|] == newline[0];
    assert newline == "\r\n" ==> text[|line| + 1] == '\n';
    assert text[|line| + |newline|..] == rest;
  }

  /** A line ends at every separator by itself, but for a CR that an LF follows. */
  lemma SplitsAt(line: string, separator: char, rest: string)
    requires OneLine(line) && IsSeparator(separator)
    ensures SplitLines(line) == if line == [] then [] else [line]
    ensures separator != '\r' || rest == [] || rest[0] != '\n' ==>
              SplitLines(line + ([separator] + rest)) == [line] + SplitLines(rest)
  {
    var text := line + ([separator] + rest);
    LineLengthAt(line, [separator] + rest);
    assert text[..|line|] == line && text[|line|] == separator && text[|line| + 1..] == rest;
    assert forall i :: 0 <= i < |line| ==> line[i] in line;
  }

  /** Lines written out are read back. */
  lemma {:induction false} SplitOfJoin(lines: seq<string>, newline: string)
    requires OneLineEach(lines) && (newline == "\n" || newline == "\r\n")
    ensures SplitLines(JoinLines(lines, newline)) == lines
  {
    if lines != [] {
      hide SplitLines, OneLine;
      SplitOfJoin(lines[1..], newline);
      SplitFirst(lines[0], newline, JoinLines(lines[1..], newline));
    }
  }

  lemma {:induction false} JoinHasCrLf(lines: seq<string>, newline: string)
    requires OneLineEach(lines) && (newline == "\n" || newline == "\r\n")
    ensures HasCrLf(JoinLines(lines, newline)) <==> lines != [] && newline == "\r\n"
  {
    if lines != [] {
      var line, rest := lines[0], JoinLines(lines[1..], newline);
      var text := line + newline + rest;
      JoinHasCrLf(lines[1..], newline);
      if newline == "\r\n" {
        assert text[|line|] == '\r' && text[|line| + 1] == '\n';
      } else {
        forall i | 0 <= i < |text| - 1
          ensures !(text[i] == '\r' && text[i + 1] == '\n')
        {
          if i < |line| {
            assert text[i] == line[i] && line[i] in line;
          } else if i > |line| {
            var k := i - |line| - 1;
            assert text[i] == rest[k] && text[i + 1] == rest[k + 1];
          }
        }
      }
    }
  }

  // -- One line -----------------------------------------------------------------------------

  function StripQuotes(s: string): string {
    if |s| >= 2 && s[0] == s[|s| - 1] && (s[0] == '\'' || s[0] == '"') then s[1..|s| - 1] else s
  }

  /** What is left of a value once it is read back. */
  function Clean(value: string): string {
    StripQuotes(Strip(value))
  }

  /** The first place of `=`, or the length if there is none. */
  function EqualsAt(s: string): (n: nat)
    ensures n <= |s| && (n < |s| ==> s[n] == '=') && forall i :: 0 <= i < n ==> s[i] != '='
  {
    if s == [] || s[0] == '=' then 0 else 1 + EqualsAt(s[1..])
  }

  /** How many letters, digits and underscores a text starts with. */
  function WordLength(s: string): (n: nat)
    ensures n <= |s| && (n < |s| ==> !IsWord(s[n])) && forall i :: 0 <= i < n ==> IsWord(s[i])
  {
    if s == [] || !IsWord(s[0]) then 0 else 1 + WordLength(s[1..])
  }

  /** What `load_env` reads from a line: nothing from a blank one, a comment, or one without a key. */
  function Entry(line: string): Option<(string, string)> {
    var s := Strip(line);
    if s == [] || s[0] == '#' || s[0] == '=' || EqualsAt(s) == |s| then None
    else Some((Strip(s[..EqualsAt(s)]), Clean(s[EqualsAt(s) + 1..])))
  }

  /** The identifier `update_env_file` finds assigned on a line. */
  function AssignedKey(line: string): Option<string> {
    var t := TrimStart(line);
    var n := WordLength(t);
    if n == 0 || IsDigit(t[0]) then None
    else
      var rest := TrimStart(t[n..]);
      if rest != [] && rest[0] == '=' then Some(t[..n]) else None
  }

  // -- Keys ---------------------------------------------------------------------------------

  lemma WordsAreNoSpace(c: char)
    requires IsWord(c)
    ensures !IsSpace(c) && c != '=' && c != '#'
  {
  }

  lemma {:induction false} WordLengthOf(word: string, rest: string)
    requires (forall i :: 0 <= i < |word| ==> IsWord(word[i])) && (rest == [] || !IsWord(rest[0]))
    ensures WordLength(word + rest) == |word|
  {
    if word == [] {
      assert word + rest == rest;
    } else {
      WordLengthOf(word[1..], rest);
      assert (word + rest)[1..] == word[1..] + rest;
    }
  }

  lemma EqualsAtUnique(s: string, n: nat)
    requires n < |s| && s[n] == '=' && forall i :: 0 <= i < n ==> s[i] != '='
    ensures EqualsAt(s) == n
  {
  }

  /** A line assigns `key` when it is the key between spaces, an equals sign, and anything. */
  ghost predicate Assigns(t: string, key: string, pad: string, rest: string) {
    t == key + pad + "=" + rest && AllSpace(pad)
  }

  lemma AssignedKeyOf(line: string, key: string, pad: string, rest: string)
    requires IsIdentifier(key) && Assigns(TrimStart(line), key, pad, rest)
    ensures AssignedKey(line) == Some(key)
  {
    var t := TrimStart(line);
    var tail := pad + "=" + rest;
    assert t == key + tail;
    assert pad != [] ==> tail[0] == pad[0] && pad[0] in pad;
    WordLengthOf(key, tail);
    assert t[..|key|] == key && t[|key|..] == tail;
    assert tail == pad + ("=" + rest);
    TrimStartOfPadded(pad, "=" + rest);
  }

  lemma AssignedKeyIs(line: string) returns (pad: string, rest: string)
    requires AssignedKey(line).Some?
    ensures IsIdentifier(AssignedKey(line).value) && Assigns(TrimStart(line), AssignedKey(line).value, pad, rest)
  {
    var t := TrimStart(line);
    var n := WordLength(t);
    var tail := t[n..];
    TrimStartIs(tail);
    var trimmed := TrimStart(tail);
    pad, rest := tail[..|tail| - |trimmed|], trimmed[1..];
    assert t == t[..n] + pad + trimmed;
    assert trimmed == "=" + rest;
  }

  /** A stripped line that assigns `key` keeps everything but the spaces at its end. */
  lemma StrippedOf(line: string, head: string, rest: string)
    requires TrimStart(line) == head + "=" + rest
    ensures Strip(line) == head + "=" + TrimEnd(rest)
  {
    TrimEndIs(rest);
    var kept, spaces := TrimEnd(rest), rest[|TrimEnd(rest)|..];
    assert head + "=" + rest == (head + "=" + kept) + spaces;
    TrimEndOfPadded(head + "=" + kept, spaces);
  }

  /** An identifier and the spaces behind it hold no equals sign, and strip to the identifier. */
  lemma PaddedKey(key: string, pad: string)
    requires IsIdentifier(key) && AllSpace(pad)
    ensures forall i :: 0 <= i < |key + pad| ==> (key + pad)[i] != '='
    ensures Strip(key + pad) == key
  {
    var head := key + pad;
    forall i | 0 <= i < |head|
      ensures head[i] != '='
    {
      if i < |key| {
        WordsAreNoSpace(key[i]);
      } else {
        assert head[i] == pad[i - |key|] && pad[i - |key|] in pad;
      }
    }
    WordsAreNoSpace(key[0]);
    WordsAreNoSpace(key[|key| - 1]);
    TrimStartOfPadded([], head);
    assert [] + head == head;
    TrimEndOfPadded(key, pad);
  }

  /** What a line that assigns `key` is read as. */
  lemma EntryOf(line: string, key: string, pad: string, rest: string)
    requires IsIdentifier(key) && Assigns(TrimStart(line), key, pad, rest)
    ensures Entry(line) == Some((key, Clean(rest)))
  {
    var s, head, kept := Strip(line), key + pad, TrimEnd(rest);
    StrippedOf(line, head, rest);
    PaddedKey(key, pad);
    assert forall i :: 0 <= i < |head| ==> s[i] == head[i];
    EqualsAtUnique(s, |head|);
    assert s[..|head|] == head && s[|head| + 1..] == kept && s[0] == key[0];
    WordsAreNoSpace(key[0]);
    StripOfTrimmed(rest);
  }

  /** The key of a stripped line ends where its spaces before the equals sign begin. */
  lemma EntryKey(s: string, n: nat) returns (pad: string)
    requires 0 < n <= |s| && !IsSpace(s[0])
    ensures s[..n] == Strip(s[..n]) + pad && AllSpace(pad)
  {
    TrimStartOfPadded([], s[..n]);
    assert [] + s[..n] == s[..n];
    TrimEndIs(s[..n]);
    pad := s[..n][|Strip(s[..n])|..];
  }

  /** A line read as an identifier's is one that assigns it. */
  lemma EntryAssigns(line: string)
    requires Entry(line).Some? && IsIdentifier(Entry(line).value.0)
    ensures AssignedKey(line) == Some(Entry(line).value.0)
  {
    var t, s, key := TrimStart(line), Strip(line), Entry(line).value.0;
    var n := EqualsAt(s);
    TrimStartIs(line);
    TrimEndIs(t);
    var pad := EntryKey(s, n);
    var rest := t[n + 1..];
    assert t[..n] == s[..n] && t[n] == '=';
    assert t == t[..n] + "=" + rest;
    AssignedKeyOf(line, key, pad, rest);
  }

  /** The two readings of a line agree on identifiers. */
  lemma KeysAgree(line: string, key: string)
    requires IsIdentifier(key)
    ensures AssignedKey(line) == Some(key) <==> Entry(line).Some? && Entry(line).value.0 == key
  {
    if AssignedKey(line) == Some(key) {
      var pad, rest := AssignedKeyIs(line);
      EntryOf(line, key, pad, rest);
    } else if Entry(line).Some? && Entry(line).value.0 == key {
      EntryAssigns(line);
    }
  }

  /** A line the updater writes is read back as its key with the value cleaned. */
  lemma WrittenLine(key: string, value: string)
    requires IsIdentifier(key)
    ensures AssignedKey(key + "=" + value) == Some(key)
    ensures Entry(key + "=" + value) == Some((key, Clean(value)))
  {
    var line := key + "=" + value;
    WordsAreNoSpace(key[0]);
    TrimStartOfPadded([], line);
    assert [] + line == line && key + [] + "=" + value == line;
    AssignedKeyOf(line, key, [], value);
    EntryOf(line, key, [], value);
  }

  // -- Loading ------------------------------------------------------------------------------

  function LoadLines(lines: seq<string>): map<string, string> {
    if lines == [] then map[]
    else
      var before, entry := LoadLines(lines[..|lines| - 1]), Entry(lines[|lines| - 1]);
      if entry.None? then before else before[entry.value.0 := entry.value.1]
  }

  /** What the lines say of one key: the last of them that names it. */
  function Lookup(lines: seq<string>, key: string): Option<string> {
    if lines == [] then None
    else
      var entry := Entry(lines[|lines| - 1]);
      if entry.Some? && entry.value.0 == key then Some(entry.value.1) else Lookup(lines[..|lines| - 1], key)
  }

  lemma {:induction false} LoadIsLookup(lines: seq<string>, key: string)
    ensures Lookup(lines, key) == if key in LoadLines(lines) then Some(LoadLines(lines)[key]) else None
  {
    if lines != [] {
      LoadIsLookup(lines[..|lines| - 1], key);
    }
  }

  method LoadEnv(text: string) returns (env: map<string, string>)
    ensures env == LoadLines(SplitLines(text))
  {
    var lines := SplitLines(text);
    env := map[];
    for i := 0 to |lines|
      invariant env == LoadLines(lines[..i])
    {
      assert lines[..i + 1][..i] == lines[..i];
      var entry := Entry(lines[i]);
      if entry.Some? {
        env := env[entry.value.0 := entry.value.1];
      }
    }
    assert lines[..|lines|] == lines;
  }

  // -- Updating -----------------------------------------------------------------------------

  /** The updates: a value for each key, and the order the keys come in. */
  datatype Updates = Updates(order: seq<string>, values: map<string, string>)
  {
    predicate Valid() {
      && (forall i :: 0 <= i < |order| ==> order[i] in values)
      && (forall key :: key in values ==> key in order)
    }

    /** Every key is one the updater finds again. */
    predicate Identifiers() {
      forall key :: key in values ==> IsIdentifier(key)
    }

    predicate OneLineValues() {
      forall key :: key in values ==> OneLine(values[key])
    }

    /** Every value is read back as it is. */
    predicate CleanValues() {
      forall key :: key in values ==> Clean(values[key]) == values[key]
    }

    /** The line written for a key. */
    function Line(key: string): string
      requires key in values
    {
      key + "=" + values[key]
    }

    /** A line as the update leaves it: replaced if it assigns a key of the updates. */
    function Replaced(line: string): string {
      var key := AssignedKey(line);
      if key.Some? && key.value in values then Line(key.value) else line
    }

    function ReplacedAll(lines: seq<string>): seq<string> {
      if lines == [] then [] else ReplacedAll(lines[..|lines| - 1]) + [Replaced(lines[|lines| - 1])]
    }

    /** The lines for the first `n` keys in order that are not among `seen`. */
    function Missing(n: nat, seen: set<string>): seq<string>
      requires Valid() && n <= |order|
    {
      if n == 0 then []
      else
        var key := order[n - 1];
        Missing(n - 1, seen) + if key in seen then [] else [Line(key)]
    }

    /** The keys of the updates that some line assigns. */
    function Seen(lines: seq<string>): set<string> {
      if lines == [] then {}
      else
        var key := AssignedKey(lines[|lines| - 1]);
        Seen(lines[..|lines| - 1]) + if key.Some? && key.value in values then {key.value} else {}
    }

    function UpdatedLines(lines: seq<string>): seq<string>
      requires Valid()
    {
      ReplacedAll(lines) + Missing(|order|, Seen(lines))
    }
  }

  /** The updated text; `None` where the source raises, over a value with a CR or an LF. */
  function UpdatedText(text: string, u: Updates): Option<string>
    requires u.Valid()
  {
    if exists key | key in u.values :: '\r' in u.values[key] || '\n' in u.values[key] then None
    else Some(JoinLines(u.UpdatedLines(SplitLines(text)), NewlineOf(text)))
  }

  method UpdateEnvFile(text: string, u: Updates) returns (r: Option<string>)
    requires u.Valid()
    ensures r == UpdatedText(text, u)
  {
    if exists key | key in u.values :: '\r' in u.values[key] || '\n' in u.values[key] {
      return None;
    }
    var lines, seen := ReplaceLines(SplitLines(text), u);
    lines := AppendMissing(lines, u, seen);
    r := Some(JoinLines(lines, NewlineOf(text)));
  }

  method ReplaceLines(original: seq<string>, u: Updates) returns (lines: seq<string>, seen: set<string>)
    ensures lines == u.ReplacedAll(original) && seen == u.Seen(original)
  {
    lines, seen := [], {};
    for i := 0 to |original|
      invariant lines == u.ReplacedAll(original[..i]) && seen == u.Seen(original[..i])
    {
      assert original[..i + 1][..i] == original[..i];
      var key := AssignedKey(original[i]);
      if key.Some? && key.value in u.values {
        lines := lines + [u.Line(key.value)];
        seen := seen + {key.value};
      } else {
        lines := lines + [original[i]];
      }
    }
    assert original[..|original|] == original;
  }

  method AppendMissing(replaced: seq<string>, u: Updates, seen: set<string>) returns (lines: seq<string>)
    requires u.Valid()
    ensures lines == replaced + u.Missing(|u.order|, seen)
  {
    lines := replaced;
    for i := 0 to |u.order|
      invariant lines == replaced + u.Missing(i, seen)
    {
      if u.order[i] !in seen {
        lines := lines + [u.Line(u.order[i])];
      }
    }
  }

  // -- The law ------------------------------------------------------------------------------

  /** Replacing changes what the lines say of an updated key, and of no other. */
  lemma {:induction false} LookupOfReplaced(lines: seq<string>, u: Updates, key: string)
    requires u.Identifiers()
    ensures Lookup(u.ReplacedAll(lines), key) ==
            if key !in u.values then Lookup(lines, key)
            else if key in u.Seen(lines) then Some(Clean(u.values[key])) else None
  {
    if lines != [] {
      var n := |lines| - 1;
      var line, all := lines[n], u.ReplacedAll(lines);
      LookupOfReplaced(lines[..n], u, key);
      assert all[..|all| - 1] == u.ReplacedAll(lines[..n]) && all[|all| - 1] == u.Replaced(line);
      var found := AssignedKey(line);
      if found.Some? && found.value in u.values {
        WrittenLine(found.value, u.values[found.value]);
        KeysAgree(line, found.value);
      } else if Entry(line).Some? && IsIdentifier(Entry(line).value.0) {
        EntryAssigns(line);
      }
    }
  }

  lemma LookupOfWritten(lines: seq<string>, u: Updates, last: string, key: string)
    requires u.Identifiers() && last in u.values
    ensures Lookup(lines + [u.Line(last)], key)
      == if key == last then Some(Clean(u.values[key])) else Lookup(lines, key)
  {
    var all := lines + [u.Line(last)];
    assert all[..|all| - 1] == lines;
    WrittenLine(last, u.values[last]);
  }

  lemma {:induction false} LookupOfMissing(u: Updates, n: nat, seen: set<string>, key: string)
    requires u.Valid() && u.Identifiers() && n <= |u.order|
    ensures Lookup(u.Missing(n, seen), key) ==
            if key in u.order[..n] && key !in seen then Some(Clean(u.values[key])) else None
  {
    hide Entry, Clean;
    if n > 0 {
      var last, before := u.order[n - 1], u.Missing(n - 1, seen);
      LookupOfMissing(u, n - 1, seen, key);
      assert u.order[..n] == u.order[..n - 1] + [last];
      LookupOfWritten(before, u, last, key);
      assert u.Missing(n, seen) == before + if last in seen then [] else [u.Line(last)];
      assert last in seen ==> u.Missing(n, seen) == before;
    }
  }

  lemma {:induction false} LookupOfConcat(a: seq<string>, b: seq<string>, key: string)
    ensures Lookup(a + b, key) == if Lookup(b, key).Some? then Lookup(b, key) else Lookup(a, key)
  {
    if b == [] {
      assert a + b == a;
    } else {
      LookupOfConcat(a, b[..|b| - 1], key);
      assert (a + b)[..|a + b| - 1] == a + b[..|b| - 1];
    }
  }

  /** The updated lines say the cleaned value of each updated key, and of any other what they said. */
  lemma LookupOfUpdated(lines: seq<string>, u: Updates, key: string)
    requires u.Valid() && u.Identifiers()
    ensures Lookup(u.UpdatedLines(lines), key) ==
            if key in u.values then Some(Clean(u.values[key])) else Lookup(lines, key)
  {
    var n := |u.order|;
    LookupOfReplaced(lines, u, key);
    LookupOfMissing(u, n, u.Seen(lines), key);
    LookupOfConcat(u.ReplacedAll(lines), u.Missing(n, u.Seen(lines)), key);
    assert u.order[..n] == u.order;
  }

  /** The written values as they are read back. */
  function ReadBack(u: Updates): map<string, string> {
    map key | key in u.values :: Clean(u.values[key])
  }

  lemma LoadOfUpdatedLines(lines: seq<string>, u: Updates)
    requires u.Valid() && u.Identifiers()
    ensures LoadLines(u.UpdatedLines(lines)) == LoadLines(lines) + ReadBack(u)
  {
    var after, expected := LoadLines(u.UpdatedLines(lines)), LoadLines(lines) + ReadBack(u);
    forall key
      ensures key in after <==> key in expected
      ensures key in after && key in expected ==> after[key] == expected[key]
    {
      LookupOfUpdated(lines, u, key);
      LoadIsLookup(lines, key);
      LoadIsLookup(u.UpdatedLines(lines), key);
    }
  }

  lemma {:induction false} ReplacedIsOneLine(lines: seq<string>, u: Updates)
    requires OneLineEach(lines) && u.Identifiers() && u.OneLineValues()
    ensures OneLineEach(u.ReplacedAll(lines))
  {
    if lines != [] {
      var n := |lines| - 1;
      ReplacedIsOneLine(lines[..n], u);
      WrittenIsOneLine(u);
    }
  }

  lemma WrittenIsOneLine(u: Updates)
    requires u.Identifiers() && u.OneLineValues()
    ensures forall key :: key in u.values ==> OneLine(u.Line(key))
  {
  }

  lemma {:induction false} MissingIsOneLine(u: Updates, n: nat, seen: set<string>)
    requires u.Valid() && u.Identifiers() && u.OneLineValues() && n <= |u.order|
    ensures OneLineEach(u.Missing(n, seen))
  {
    if n > 0 {
      MissingIsOneLine(u, n - 1, seen);
      WrittenIsOneLine(u);
    }
  }

  /** The updated text holds exactly the updated lines. */
  lemma UpdatedTextSplits(text: string, u: Updates)
    requires u.Valid() && u.Identifiers() && u.OneLineValues()
    ensures UpdatedText(text, u).Some?
    ensures SplitLines(UpdatedText(text, u).value) == u.UpdatedLines(SplitLines(text))
    ensures OneLineEach(u.UpdatedLines(SplitLines(text)))
  {
    var lines := SplitLines(text);
    forall key | key in u.values
      ensures '\r' !in u.values[key] && '\n' !in u.values[key]
    {
    }
    ReplacedIsOneLine(lines, u);
    MissingIsOneLine(u, |u.order|, u.Seen(lines));
    SplitOfJoin(u.UpdatedLines(lines), NewlineOf(text));
  }

  lemma {:induction false} LoadedIsOneLine(lines: seq<string>, key: string)
    requires OneLineEach(lines) && Lookup(lines, key).Some?
    ensures OneLine(Lookup(lines, key).value)
  {
    var n := |lines| - 1;
    var entry := Entry(lines[n]);
    if entry.Some? && entry.value.0 == key {
      EntryIsOneLine(lines[n]);
    } else {
      LoadedIsOneLine(lines[..n], key);
    }
  }

  lemma EntryIsOneLine(line: string)
    requires OneLine(line) && Entry(line).Some?
    ensures OneLine(Entry(line).value.1)
  {
    var s := Strip(line);
    var rest := s[EqualsAt(s) + 1..];
    var value := Strip(rest);
    StripWithin(line);
    StripWithin(rest);
    forall c | c in StripQuotes(value)
      ensures !IsSeparator(c)
    {
      assert c in value && c in rest && c in s && c in line;
    }
  }

  lemma ReadBackClean(u: Updates)
    requires u.CleanValues()
    ensures ReadBack(u) == u.values
  {
    assert forall key :: key in u.values ==> ReadBack(u)[key] == Clean(u.values[key]);
  }

  lemma LawHolds(text: string, u: Updates)
    requires u.Valid() && u.Identifiers() && u.OneLineValues() && u.CleanValues()
    ensures UpdatedText(text, u).Some?
    ensures LoadLines(SplitLines(UpdatedText(text, u).value)) == LoadLines(SplitLines(text)) + u.values
  {
    UpdatedTextSplits(text, u);
    LoadOfUpdatedLines(SplitLines(text), u);
    ReadBackClean(u);
  }

  lemma LawNeeds(text: string, u: Updates)
    requires u.Valid() && u.Identifiers() && UpdatedText(text, u).Some?
    requires LoadLines(SplitLines(UpdatedText(text, u).value)) == LoadLines(SplitLines(text)) + u.values
    ensures u.OneLineValues() && u.CleanValues()
  {
    var lines, after := SplitLines(text), SplitLines(UpdatedText(text, u).value);
    forall key | key in u.values
      ensures OneLine(u.values[key])
    {
      LoadIsLookup(after, key);
      LoadedIsOneLine(after, key);
    }
    UpdatedTextSplits(text, u);
    LoadOfUpdatedLines(lines, u);
    assert forall key :: key in u.values ==> ReadBack(u)[key] == (LoadLines(lines) + u.values)[key];
  }

  /**
   The law: loading after an update gives the old values overridden by the updates, exactly when
   every value is on one line and reads back as it is, without outer whitespace or a matching pair
   of quotes around it. The source refuses only CR and LF; other line separators it lets through.
   */
  lemma UpdateLaw(text: string, u: Updates)
    requires u.Valid() && u.Identifiers() && UpdatedText(text, u).Some?
    ensures LoadLines(SplitLines(UpdatedText(text, u).value)) == LoadLines(SplitLines(text)) + u.values <==>
            u.OneLineValues() && u.CleanValues()
  {
    if u.OneLineValues() && u.CleanValues() {
      LawHolds(text, u);
    }
    if LoadLines(SplitLines(UpdatedText(text, u).value)) == LoadLines(SplitLines(text)) + u.values {
      LawNeeds(text, u);
    }
  }

  /** A value reads back as it is exactly without outer whitespace and without a pair of quotes to lose. */
  lemma CleanExactly(value: string)
    ensures Clean(value) == value <==>
            && (value == [] || (!IsSpace(value[0]) && !IsSpace(value[|value| - 1])))
            && !(|value| >= 2 && value[0] == value[|value| - 1] && (value[0] == '\'' || value[0] == '"'))
  {
    StripExactly(value);
    assert |StripQuotes(Strip(value))| <= |Strip(value)|;
    assert StripQuotes(Strip(value)) == value ==> |Strip(value)| == |value|;
    TrimStartIs(value);
    TrimEndIs(TrimStart(value));
  }

  /** A pair of quotes around a value, and whitespace around that, is all that reading takes off. */
  lemma QuotedReads(before: string, quote: char, value: string, after: string)
    requires AllSpace(before) && AllSpace(after) && (quote == '\'' || quote == '"')
    ensures Clean(before + ([quote] + value + [quote]) + after) == value
  {
    var core := [quote] + value + [quote];
    assert !IsSpace(quote);
    assert core[0] == quote && core[|core| - 1] == quote;
    assert before + core + after == before + (core + after);
    TrimStartOfPadded(before, core + after);
    TrimEndOfPadded(core, after);
    assert core[1..|core| - 1] == value;
  }

  /** What is read from a line: nothing from a blank one, a comment, or one without a key or an equals sign. */
  lemma EntryExactly(line: string, n: nat)
    ensures Strip(line) == "" || Strip(line)[0] == '#' || Strip(line)[0] == '=' || '=' !in Strip(line) ==>
              Entry(line) == None
    ensures var s := Strip(line);
      0 < n < |s| && s[0] != '#' && s[n] == '=' && (forall i :: 0 <= i < n ==> s[i] != '=') ==>
        Entry(line) == Some((Strip(s[..n]), Clean(s[n + 1..])))
  {
    var s := Strip(line);
    if n < |s| && s[n] == '=' && forall i :: 0 <= i < n ==> s[i] != '=' {
      EqualsAtUnique(s, n);
    }
  }

  /** The characters of a key, by their codes. */
  lemma WordsExactly(c: char)
    ensures IsDigit(c) <==> 48 <= c as int <= 57
    ensures IsWord(c) <==> || 48 <= c as int <= 57 || 65 <= c as int <= 90
                           || c as int == 95 || 97 <= c as int <= 122
  {
  }

  /** An update is refused exactly if a value holds a CR or an LF. */
  lemma RefusedExactly(text: string, u: Updates)
    requires u.Valid()
    ensures UpdatedText(text, u).None? <==>
      exists key :: key in u.values && exists c :: c in u.values[key] && (c as int == 13 || c as int == 10)
  {
    assert '\r' as int == 13 && '\n' as int == 10;
    if key :| key in u.values && exists c :: c in u.values[key] && (c as int == 13 || c as int == 10) {
      var c :| c in u.values[key] && (c as int == 13 || c as int == 10);
      assert c == '\r' || c == '\n';
    }
  }

  /** A file keeps its line endings: CRLF throughout if it had any, LF otherwise. */
  lemma EndingsKept(text: string, u: Updates)
    requires u.Valid() && u.Identifiers() && u.OneLineValues()
    ensures UpdatedText(text, u).Some?
    ensures HasCrLf(UpdatedText(text, u).value) <==> HasCrLf(text) && u.UpdatedLines(SplitLines(text)) != []
  {
    UpdatedTextSplits(text, u);
    JoinHasCrLf(u.UpdatedLines(SplitLines(text)), NewlineOf(text));
  }

  /** Each line stays in its place: replaced if it assigns an updated key, as it was otherwise. */
  lemma {:induction false} ReplacedAt(lines: seq<string>, u: Updates, i: nat)
    requires i < |lines|
    ensures |u.ReplacedAll(lines)| == |lines|
    ensures var key := AssignedKey(lines[i]);
      u.ReplacedAll(lines)[i]
        == if key.Some? && key.value in u.values then key.value + "=" + u.values[key.value] else lines[i]
  {
    hide AssignedKey;
    var n := |lines| - 1;
    assert n > 0 ==> |u.ReplacedAll(lines[..n])| == n by {
      if n > 0 {
        ReplacedAt(lines[..n], u, 0);
      }
    }
    if i < n {
      ReplacedAt(lines[..n], u, i);
    } else {
      assert u.ReplacedAll(lines)[n] == u.Replaced(lines[n]);
    }
  }

  /** A value with a line separator other than CR or LF is let through, and is not read back. */
  lemma SeparatorSlipsThrough()
    ensures var u := Updates(["K"], map["K" := ['a', '\U{85}', 'b']]);
            && u.Valid() && u.Identifiers() && UpdatedText("", u).Some?
            && LoadLines(SplitLines(UpdatedText("", u).value)) != map["K" := ['a', '\U{85}', 'b']]
  {
    var value := ['a', '\U{85}', 'b'];
    var u := Updates(["K"], map["K" := value]);
    assert value[1] in value;
    UpdateLaw("", u);
    assert LoadLines(SplitLines("")) + u.values == u.values;
  }

  // -- What an update keeps -----------------------------------------------------------------

  /** The lines that assign no key of the updates. */
  function Others(lines: seq<string>, u: Updates): seq<string> {
    if lines == [] then []
    else
      var last := lines[|lines| - 1];
      var key := AssignedKey(last);
      Others(lines[..|lines| - 1], u) + if key.Some? && key.value in u.values then [] else [last]
  }

  /** What one more line does to everything read off the lines. */
  lemma OneMore(lines: seq<string>, line: string, u: Updates)
    ensures u.ReplacedAll(lines + [line]) == u.ReplacedAll(lines) + [u.Replaced(line)]
    ensures var key := AssignedKey(line);
            if key.Some? && key.value in u.values
            then Others(lines + [line], u) == Others(lines, u) && u.Seen(lines + [line]) == u.Seen(lines) + {key.value}
            else Others(lines + [line], u) == Others(lines, u) + [line] && u.Seen(lines + [line]) == u.Seen(lines)
  {
  }

  /** Every other line stays, in order, and every line assigning an updated key carries its value. */
  lemma {:induction false} ReplacedKeepsOthers(lines: seq<string>, u: Updates)
    requires u.Identifiers()
    ensures Others(u.ReplacedAll(lines), u) == Others(lines, u)
    ensures u.Seen(u.ReplacedAll(lines)) == u.Seen(lines)
    ensures u.ReplacedAll(u.ReplacedAll(lines)) == u.ReplacedAll(lines)
  {
    if lines != [] {
      var n := |lines| - 1;
      var key := AssignedKey(lines[n]);
      ReplacedKeepsOthers(lines[..n], u);
      assert lines == lines[..n] + [lines[n]];
      OneMore(lines[..n], lines[n], u);
      OneMore(u.ReplacedAll(lines[..n]), u.Replaced(lines[n]), u);
      if key.Some? && key.value in u.values {
        WrittenLine(key.value, u.values[key.value]);
      }
    }
  }

  /** A line the updates themselves write. */
  ghost predicate Written(line: string, u: Updates) {
    exists key :: key in u.values && line == u.Line(key)
  }

  lemma WrittenStays(line: string, u: Updates)
    requires u.Identifiers() && Written(line, u)
    ensures AssignedKey(line).Some? && AssignedKey(line).value in u.values && u.Replaced(line) == line
  {
    var key :| key in u.values && line == u.Line(key);
    WrittenLine(key, u.values[key]);
  }

  lemma {:induction false} WrittenStay(lines: seq<string>, u: Updates)
    requires u.Identifiers() && forall i :: 0 <= i < |lines| ==> Written(lines[i], u)
    ensures Others(lines, u) == [] && u.ReplacedAll(lines) == lines
  {
    hide AssignedKey, Entry;
    if lines != [] {
      var n := |lines| - 1;
      WrittenStay(lines[..n], u);
      WrittenStays(lines[n], u);
    }
  }

  lemma {:induction false} WrittenSeen(lines: seq<string>, u: Updates, key: string)
    requires u.Identifiers() && key in u.values && u.Line(key) in lines
    ensures key in u.Seen(lines)
  {
    var n := |lines| - 1;
    if lines[n] == u.Line(key) {
      WrittenLine(key, u.values[key]);
    } else {
      WrittenSeen(lines[..n], u, key);
    }
  }

  lemma {:induction false} MissingWritten(u: Updates, n: nat, seen: set<string>)
    requires u.Valid() && n <= |u.order|
    ensures forall i :: 0 <= i < |u.Missing(n, seen)| ==> Written(u.Missing(n, seen)[i], u)
    ensures forall i :: 0 <= i < n && u.order[i] !in seen ==> u.Line(u.order[i]) in u.Missing(n, seen)
  {
    if n > 0 {
      MissingWritten(u, n - 1, seen);
    }
  }

  lemma {:induction false} OverConcat(a: seq<string>, b: seq<string>, u: Updates)
    ensures Others(a + b, u) == Others(a, u) + Others(b, u)
    ensures u.ReplacedAll(a + b) == u.ReplacedAll(a) + u.ReplacedAll(b)
    ensures u.Seen(a + b) == u.Seen(a) + u.Seen(b)
  {
    if b == [] {
      assert a + b == a;
    } else {
      OverConcat(a, b[..|b| - 1], u);
      assert (a + b)[..|a + b| - 1] == a + b[..|b| - 1];
    }
  }

  lemma {:induction false} NothingMissing(u: Updates, n: nat, seen: set<string>)
    requires u.Valid() && n <= |u.order| && forall i :: 0 <= i < n ==> u.order[i] in seen
    ensures u.Missing(n, seen) == []
  {
    if n > 0 {
      NothingMissing(u, n - 1, seen);
    }
  }

  /** Updating lines again changes nothing, and the other lines stay as they were, in order. */
  lemma UpdatedLinesKeep(lines: seq<string>, u: Updates)
    requires u.Valid() && u.Identifiers()
    ensures Others(u.UpdatedLines(lines), u) == Others(lines, u)
    ensures u.UpdatedLines(u.UpdatedLines(lines)) == u.UpdatedLines(lines)
  {
    var n, seen := |u.order|, u.Seen(lines);
    var replaced, missing := u.ReplacedAll(lines), u.Missing(n, seen);
    ReplacedKeepsOthers(lines, u);
    MissingWritten(u, n, seen);
    WrittenStay(missing, u);
    OverConcat(replaced, missing, u);
    forall i | 0 <= i < n
      ensures u.order[i] in u.Seen(replaced + missing)
    {
      if u.order[i] !in seen {
        WrittenSeen(missing, u, u.order[i]);
      }
    }
    NothingMissing(u, n, u.Seen(replaced + missing));
  }

  /** Repeating an update changes nothing in the file, its line endings included. */
  lemma UpdateTwice(text: string, u: Updates)
    requires u.Valid() && u.Identifiers() && u.OneLineValues()
    ensures UpdatedText(text, u).Some? && UpdatedText(UpdatedText(text, u).value, u) == UpdatedText(text, u)
  {
    var lines := SplitLines(text);
    UpdatedTextSplits(text, u);
    UpdatedLinesKeep(lines, u);
    JoinHasCrLf(u.UpdatedLines(lines), NewlineOf(text));
    if HasCrLf(text) {
      assert text != [] && lines != [];
      assert |u.ReplacedAll(lines)| > 0;
    }
  }
}
