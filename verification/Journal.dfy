/**
 The recording journal: `Recording` and `Journal`, which append a session to a file line by line,
 and `read_journal`, which rebuilds the session from what an abrupt end left of the file.
 Times are whole milliseconds, to which the recorder rounds them, and a message is its
 serialized form.
 */
module Journal {
  import opened Wrappers
  import Whitespace

  const FORMAT := 1
  const MIN_NAME_CHARS := 3
  const MARKER := "marker"
  const JOURNAL_TORN := "recording journal ended in a partly written line, which was dropped"
  const JOURNAL_STOPPED := "recording journal stopped here: an abrupt end after this would lose the rest"

  datatype Entry = Entry(t: int, kind: string, note: string, message: Option<string>, typed: bool)

  datatype Header = Header(
    format: int,
    startedWallMs: int,
    account: int,
    login: Option<int>,
    names: seq<string>,
    shiftDraw: Option<int>)

  /** What a line of JSON can be to the reader. */
  datatype Item =
    | Head(header: Header)
    | Name(name: string)
    | Raw(t: int, kind: string, note: string, payload: Option<string>, flag: Option<bool>)
    | Alien

  /** What a journal gives back. */
  datatype Session = Session(
    startedWallMs: int,
    account: int,
    login: Option<int>,
    shiftDraw: int,
    names: seq<string>,
    timeline: seq<Entry>)

  // -- Lines ------------------------------------------------------------------------------------

  /** `json.dumps` and `json.loads`, of which `decode` is `None` where the latter raises. */
  datatype Codec = Codec(encode: Item -> string, decode: string -> Option<Item>)

  /** A JSON object is one line, reads back, and no text cut short inside it reads at all. */
  ghost predicate Faithful(c: Codec) {
    && c.decode("") == None
    && (forall item :: c.decode(c.encode(item)) == Some(item) && '\n' !in c.encode(item))
    && (forall item, k :: 0 <= k < |c.encode(item)| ==> c.decode(c.encode(item)[..k]) == None)
  }

  lemma Regroup<T>(a: seq<T>, b: seq<T>, c: seq<T>)
    ensures a + (b + c) == a + b + c
  {
  }

  function Text(items: seq<Item>, c: Codec): string {
    if items == [] then "" else c.encode(items[0]) + "\n" + Text(items[1..], c)
  }

  lemma {:induction false} TextAppend(a: seq<Item>, b: seq<Item>, c: Codec)
    ensures Text(a + b, c) == Text(a, c) + Text(b, c)
  {
    if a == [] {
      assert a + b == b;
    } else {
      TextAppend(a[1..], b, c);
      assert (a + b)[1..] == a[1..] + b && (a + b)[0] == a[0];
      var line := c.encode(a[0]) + "\n";
      assert Text(a, c) == line + Text(a[1..], c) && Text(a + b, c) == line + Text(a[1..] + b, c);
      Regroup(line, Text(a[1..], c), Text(b, c));
    }
  }

  function Split(data: string): (lines: seq<string>)
    ensures lines != []
  {
    if data == "" then [""]
    else
      var rest := Split(data[1..]);
      if data[0] == '\n' then [""] + rest else [[data[0]] + rest[0]] + rest[1..]
  }

  /** The lines of a file: what follows the last line break counts only if it is not empty. */
  function Lines(data: string): seq<string> {
    var lines := Split(data);
    if lines[|lines| - 1] == "" then lines[..|lines| - 1] else lines
  }

  lemma {:induction false} SplitLine(line: string, rest: string)
    requires '\n' !in line
    ensures Split(line) == [line]
    ensures Split(line + "\n" + rest) == [line] + Split(rest)
  {
    if line == "" {
      assert line + "\n" + rest == "\n" + rest;
    } else {
      SplitLine(line[1..], rest);
      assert (line + "\n" + rest)[1..] == line[1..] + "\n" + rest;
      assert [line[0]] + line[1..] == line;
    }
  }

  lemma LinesOf(line: string, rest: string)
    requires '\n' !in line
    ensures Lines(line) == if line == "" then [] else [line]
    ensures Lines(line + "\n" + rest) == [line] + Lines(rest)
  {
    SplitLine(line, rest);
  }

  // -- Entries and names ------------------------------------------------------------------------

  function RawOf(e: Entry): Item {
    Raw(e.t, e.kind, e.note, e.message, if e.kind == MARKER then Some(e.typed) else None)
  }

  function EntryOf(raw: Item): Entry
    requires raw.Raw?
  {
    Entry(raw.t, raw.kind, raw.note, raw.payload, if raw.flag.Some? then raw.flag.value else raw.kind == MARKER)
  }

  /** The names after `add_name`: stripped, long enough, and each once. */
  function WithName(names: seq<string>, name: string): seq<string> {
    var stripped := Whitespace.Strip(name);
    if |stripped| >= MIN_NAME_CHARS && stripped !in names then names + [stripped] else names
  }

  ghost predicate ProperNames(names: seq<string>) {
    && (forall name <- names :: Whitespace.Strip(name) == name && |name| >= MIN_NAME_CHARS)
    && (forall i, j :: 0 <= i < j < |names| ==> names[i] != names[j])
  }

  lemma WithNameIsProper(names: seq<string>, name: string)
    requires ProperNames(names)
    ensures ProperNames(WithName(names, name))
  {
    Whitespace.StripTwice(name);
    hide Whitespace.Strip;
  }

  function LastTime(timeline: seq<Entry>): int {
    if timeline == [] then 0 else timeline[|timeline| - 1].t
  }

  function WithMarker(timeline: seq<Entry>, note: string): seq<Entry> {
    timeline + [Entry(LastTime(timeline), MARKER, note, None, false)]
  }

  // -- Reading ----------------------------------------------------------------------------------

  predicate IsBody(item: Item) {
    item.Name? || item.Raw?
  }

  /** A session and one line more. */
  function With(s: Session, item: Item): Session
    requires IsBody(item)
  {
    if item.Name? then s.(names := WithName(s.names, item.name)) else s.(timeline := s.timeline + [EntryOf(item)])
  }

  /** A session read to its end, marked if its last line was partly written. */
  function Ended(s: Session, torn: bool): Session {
    if torn then s.(timeline := WithMarker(s.timeline, JOURNAL_TORN)) else s
  }

  /** What the lines after the header add to a session. */
  function ReadLines(lines: seq<string>, sofar: Session, c: Codec): Result<Session> {
    if lines == [] then Success(sofar)
    else
      match c.decode(lines[0])
      case None => if |lines| > 1 then Failure else Success(Ended(sofar, true))
      case Some(item) => if IsBody(item) then ReadLines(lines[1..], With(sofar, item), c) else Failure
  }

  function Begin(h: Header): Result<Session> {
    if h.format != FORMAT || h.shiftDraw == None then Failure
    else Success(Session(h.startedWallMs, h.account, h.login, h.shiftDraw.value, h.names, []))
  }

  function Read(data: string, c: Codec): Result<Session> {
    var lines := Lines(data);
    if lines == [] then Failure
    else
      match c.decode(lines[0])
      case Some(Head(h)) =>
        (match Begin(h)
         case Success(start) => ReadLines(lines[1..], start, c)
         case Failure => Failure)
      case _ => Failure
  }

  method ReadJournal(data: string, c: Codec) returns (r: Result<Session>)
    ensures r == Read(data, c)
  {
    var lines := Lines(data);
    if lines == [] {
      return Failure;
    }
    var first := c.decode(lines[0]);
    if first == None || !first.value.Head? || Begin(first.value.header).Failure? {
      return Failure;
    }
    var sofar := Begin(first.value.header).value;
    var index := 1;
    var torn := false;
    while index < |lines| && !torn
      invariant 1 <= index <= |lines|
      invariant !torn ==> Read(data, c) == ReadLines(lines[index..], sofar, c)
      invariant torn ==> Read(data, c) == Success(Ended(sofar, true))
      decreases |lines| - index, !torn
    {
      var item := c.decode(lines[index]);
      assert lines[index..][1..] == lines[index + 1..];
      match item {
        case None =>
          if index < |lines| - 1 {
            return Failure;
          }
          torn := true;
        case Some(Name(name)) =>
          sofar := sofar.(names := WithName(sofar.names, name));
          index := index + 1;
        case Some(Raw(_, _, _, _, _)) =>
          sofar := sofar.(timeline := sofar.timeline + [EntryOf(item.value)]);
          index := index + 1;
        case _ =>
          return Failure;
      }
    }
    if torn {
      sofar := sofar.(timeline := WithMarker(sofar.timeline, JOURNAL_TORN));
    }
    return Success(sofar);
  }

  /** Every line but the header and the last is an entry or a name, and so is the last, unless it does not read. */
  ghost predicate Readable(lines: seq<string>, c: Codec) {
    forall i :: 0 <= i < |lines| ==>
      match c.decode(lines[i])
      case None => i == |lines| - 1
      case Some(item) => item.Name? || item.Raw?
  }

  lemma {:induction false} LinesReadExactly(lines: seq<string>, sofar: Session, c: Codec)
    ensures ReadLines(lines, sofar, c).Success? <==> Readable(lines, c)
  {
    if lines != [] {
      var item := c.decode(lines[0]);
      if item.Some? && IsBody(item.value) {
        LinesReadExactly(lines[1..], With(sofar, item.value), c);
        assert Readable(lines, c) <==> Readable(lines[1..], c) by {
          assert forall i :: 0 < i < |lines| ==> lines[i] == lines[1..][i - 1];
        }
      }
    }
  }

  /** Which files read at all: a header of format 1 with a money shift, and then readable lines. */
  lemma ReadsExactly(data: string, c: Codec)
    ensures Read(data, c).Success? <==>
      var lines := Lines(data);
      && lines != [] && c.decode(lines[0]).Some? && c.decode(lines[0]).value.Head?
      && c.decode(lines[0]).value.header.format == 1 && c.decode(lines[0]).value.header.shiftDraw.Some?
      && Readable(lines[1..], c)
  {
    var lines := Lines(data);
    if lines != [] && c.decode(lines[0]).Some? && c.decode(lines[0]).value.Head? {
      var start := Begin(c.decode(lines[0]).value.header);
      if start.Success? {
        LinesReadExactly(lines[1..], start.value, c);
      }
    }
  }

  // -- What is left of a journal ----------------------------------------------------------------

  /** The entries some lines hold, in order. */
  function Entries(items: seq<Item>): seq<Entry> {
    if items == [] then [] else EntryIn(items[0]) + Entries(items[1..])
  }

  function EntryIn(item: Item): seq<Entry> {
    if item.Raw? then [EntryOf(item)] else []
  }

  /** The names some lines hold, in order. */
  function Names(items: seq<Item>): seq<string> {
    if items == [] then [] else NameIn(items[0]) + Names(items[1..])
  }

  function NameIn(item: Item): seq<string> {
    if item.Name? then [item.name] else []
  }

  /** A session and the whole lines of a journal's body. */
  function WithAll(s: Session, items: seq<Item>): Session {
    s.(names := s.names + Names(items), timeline := s.timeline + Entries(items))
  }

  /** A header of this format, then entries and names, each name once. */
  ghost predicate IsJournal(items: seq<Item>) {
    && items != [] && items[0].Head? && Begin(items[0].header).Success? && (forall item <- items[1..] :: IsBody(item))
    && ProperNames(items[0].header.names + Names(items[1..]))
  }

  /** The session that the first lines of a journal hold. */
  function Held(items: seq<Item>, torn: bool): Session
    requires items != [] && items[0].Head? && Begin(items[0].header).Success?
  {
    Ended(WithAll(Begin(items[0].header).value, items[1..]), torn)
  }

  /** How many items are whole in the first `k` characters of their text, with or without the last line's break. */
  function Whole(items: seq<Item>, k: nat, c: Codec): (n: nat)
    ensures n <= |items|
    ensures n > 0 ==> |Text(items[..n], c)| <= k + 1
    ensures n < |items| ==> k < |Text(items[..n], c)| + |c.encode(items[n])|
  {
    if items == [] || k < |c.encode(items[0])| then 0
    else if k == |c.encode(items[0])| then
      assert items[..1][1..] == [];
      assert Text(items[..1][1..], c) == "";
      assert |items| > 1 ==> |c.encode(items[0])| + 1 + |c.encode(items[1])| > k;
      1
    else
      var n := Whole(items[1..], k - |c.encode(items[0])| - 1, c);
      assert items[..n + 1][1..] == items[1..][..n];
      n + 1
  }

  function Encoded(items: seq<Item>, c: Codec): seq<string> {
    if items == [] then [] else [c.encode(items[0])] + Encoded(items[1..], c)
  }

  /** The line the cut at `k` went through, if it did. */
  function Torn(items: seq<Item>, k: nat, c: Codec): (piece: seq<string>)
    ensures piece == [] || |piece| == 1
  {
    var n := Whole(items, k, c);
    var at := |Text(items[..n], c)|;
    if n < |items| && k > at then [c.encode(items[n])[..k - at]] else []
  }

  predicate Unreadable(torn: seq<string>, c: Codec) {
    torn == [] || (|torn| == 1 && c.decode(torn[0]) == None)
  }

  /** The cut went through a line exactly if it left more than the whole ones, and that line does not read. */
  lemma TornExactly(items: seq<Item>, k: nat, c: Codec)
    requires Faithful(c) && k <= |Text(items, c)|
    ensures Torn(items, k, c) != [] <==> k > |Text(items[..Whole(items, k, c)], c)|
    ensures Unreadable(Torn(items, k, c), c)
  {
    hide Text, Whole;
    assert items[..|items|] == items;
  }

  /** A cut in a later line is a cut in what follows the first one. */
  lemma CutLater(items: seq<Item>, k: nat, c: Codec)
    requires items != [] && k > |c.encode(items[0])|
    ensures var n, rest := Whole(items, k, c), k - |c.encode(items[0])| - 1;
      n > 0 && Encoded(items[..n], c) == [c.encode(items[0])] + Encoded(items[1..][..Whole(items[1..], rest, c)], c)
      && Torn(items, k, c) == Torn(items[1..], rest, c)
  {
    var n := Whole(items, k, c);
    assert items[..n][1..] == items[1..][..n - 1];
  }

  lemma LinesOfCut(items: seq<Item>, k: nat, c: Codec)
    requires Faithful(c) && items != [] && k <= |Text(items, c)|
    ensures var line, rest, lines := c.encode(items[0]), Text(items[1..], c), Lines(Text(items, c)[..k]);
      if k <= |line| then lines == if k == 0 then [] else [line[..k]]
      else k - |line| - 1 <= |rest| && lines == [line] + Lines(rest[..k - |line| - 1])
  {
    hide Lines;
    var line, rest := c.encode(items[0]), Text(items[1..], c);
    if k <= |line| {
      assert Text(items, c)[..k] == line[..k];
      LinesOf(line[..k], "");
    } else {
      assert Text(items, c)[..k] == line + "\n" + rest[..k - |line| - 1];
      LinesOf(line, rest[..k - |line| - 1]);
    }
  }

  /** The lines left of some lines by a cut. */
  function LinesLeft(items: seq<Item>, k: nat, c: Codec): seq<string> {
    if items == [] || k == 0 then []
    else
      var line := c.encode(items[0]);
      if k <= |line| then [line[..k]] else [line] + LinesLeft(items[1..], k - |line| - 1, c)
  }

  lemma {:induction false} ReadLeft(items: seq<Item>, k: nat, c: Codec)
    requires Faithful(c) && k <= |Text(items, c)|
    ensures Lines(Text(items, c)[..k]) == LinesLeft(items, k, c)
  {
    if items != [] {
      hide Lines, Text;
      LinesOfCut(items, k, c);
      if k > |c.encode(items[0])| {
        ReadLeft(items[1..], k - |c.encode(items[0])| - 1, c);
      }
    }
  }

  /** The lines left by a cut are those whole, and the one it went through. */
  lemma {:induction false} LinesLeftAre(items: seq<Item>, k: nat, c: Codec)
    requires Faithful(c) && k <= |Text(items, c)|
    ensures LinesLeft(items, k, c) == Encoded(items[..Whole(items, k, c)], c) + Torn(items, k, c)
    decreases items, 1
  {
    if items != [] {
      var line := c.encode(items[0]);
      if k <= |line| {
        CutFirst(items, k, c);
      } else {
        assert LinesLeft(items, k, c) == [line] + LinesLeft(items[1..], k - |line| - 1, c);
        assert k - |line| - 1 <= |Text(items[1..], c)|;
        LeftLater(items, k, c);
      }
    }
  }

  lemma {:induction false} LeftLater(items: seq<Item>, k: nat, c: Codec)
    requires Faithful(c) && items != [] && k > |c.encode(items[0])|
    requires k - |c.encode(items[0])| - 1 <= |Text(items[1..], c)|
    requires LinesLeft(items, k, c) == [c.encode(items[0])] + LinesLeft(items[1..], k - |c.encode(items[0])| - 1, c)
    ensures LinesLeft(items, k, c) == Encoded(items[..Whole(items, k, c)], c) + Torn(items, k, c)
    decreases items, 0
  {
    hide *;
    var line, rest := c.encode(items[0]), items[1..];
    var j := k - |line| - 1;
    LinesLeftAre(rest, j, c);
    CutLater(items, k, c);
    Regroup([line], Encoded(rest[..Whole(rest, j, c)], c), Torn(rest, j, c));
  }

  /** A cut in the first line, or just before its break. */
  lemma CutFirst(items: seq<Item>, k: nat, c: Codec)
    requires Faithful(c) && items != [] && k <= |c.encode(items[0])|
    ensures Encoded(items[..Whole(items, k, c)], c) + Torn(items, k, c)
      == if k == 0 then [] else [c.encode(items[0])[..k]]
  {
    var line := c.encode(items[0]);
    assert line != "";
    assert line[..|line|] == line;
    if k == |line| {
      assert items[..1] == [items[0]] && items[..1][1..] == [];
      assert Text(items[..1], c) == line + "\n" + "";
    }
  }

  /** A name that comes next among proper ones is taken. */
  lemma WithNext(s: Session, item: Item, rest: seq<string>)
    requires IsBody(item) && ProperNames(s.names + NameIn(item) + rest)
    ensures With(s, item) == s.(names := s.names + NameIn(item), timeline := s.timeline + EntryIn(item))
  {
    hide Whitespace.Strip;
    if item.Name? {
      var all := s.names + NameIn(item) + rest;
      assert all[|s.names|] == item.name && item.name in all;
      assert forall i :: 0 <= i < |s.names| ==> all[i] == s.names[i];
    }
  }

  lemma WithAllNext(s: Session, items: seq<Item>)
    requires items != [] && IsBody(items[0]) && ProperNames(s.names + Names(items))
    ensures ProperNames(With(s, items[0]).names + Names(items[1..]))
    ensures WithAll(With(s, items[0]), items[1..]) == WithAll(s, items)
  {
    hide ProperNames;
    var item := items[0];
    Regroup(s.names, NameIn(item), Names(items[1..]));
    Regroup(s.timeline, EntryIn(item), Entries(items[1..]));
    WithNext(s, item, Names(items[1..]));
  }

  /** Reading the whole lines of a journal's body, and then a last one that does not read. */
  lemma {:induction false} ReadBody(items: seq<Item>, torn: seq<string>, sofar: Session, c: Codec)
    requires Faithful(c) && (forall item <- items :: IsBody(item)) && ProperNames(sofar.names + Names(items))
    requires Unreadable(torn, c)
    ensures ReadLines(Encoded(items, c) + torn, sofar, c) == Success(Ended(WithAll(sofar, items), torn != []))
  {
    var lines := Encoded(items, c) + torn;
    hide ProperNames, With;
    if items == [] {
      assert lines == torn;
      assert sofar.names + [] == sofar.names && sofar.timeline + [] == sofar.timeline;
      assert torn != [] ==> lines[0] == torn[0];
    } else {
      hide WithAll;
      assert lines[1..] == Encoded(items[1..], c) + torn;
      assert lines[0] == c.encode(items[0]);
      WithAllNext(sofar, items);
      ReadBody(items[1..], torn, With(sofar, items[0]), c);
    }
  }

  lemma {:induction false} NamesAppend(a: seq<Item>, b: seq<Item>)
    ensures Names(a + b) == Names(a) + Names(b)
  {
    hide NameIn;
    if a == [] {
      assert a + b == b;
    } else {
      NamesAppend(a[1..], b);
      assert (a + b)[1..] == a[1..] + b && (a + b)[0] == a[0];
      Regroup(NameIn(a[0]), Names(a[1..]), Names(b));
    }
  }

  lemma {:induction false} EntriesAppend(a: seq<Item>, b: seq<Item>)
    ensures Entries(a + b) == Entries(a) + Entries(b)
  {
    hide EntryIn;
    if a == [] {
      assert a + b == b;
    } else {
      EntriesAppend(a[1..], b);
      assert (a + b)[1..] == a[1..] + b && (a + b)[0] == a[0];
      Regroup(EntryIn(a[0]), Entries(a[1..]), Entries(b));
    }
  }

  lemma {:induction false} ProperPrefix(names: seq<string>, rest: seq<string>)
    requires ProperNames(names + rest)
    ensures ProperNames(names)
  {
    hide Whitespace.Strip;
    var all := names + rest;
    assert forall i :: 0 <= i < |names| ==> names[i] == all[i] && all[i] in all;
  }

  lemma JournalPrefix(items: seq<Item>, n: nat)
    requires IsJournal(items) && 0 < n <= |items|
    ensures IsJournal(items[..n])
    ensures Entries(items[..n][1..]) <= Entries(items[1..])
    ensures items[0].header.names + Names(items[..n][1..]) <= items[0].header.names + Names(items[1..])
  {
    hide ProperNames;
    var body, cut := items[..n][1..], items[n..];
    assert items[1..] == body + cut;
    NamesAppend(body, cut);
    EntriesAppend(body, cut);
    var names := items[0].header.names + Names(body);
    assert items[0].header.names + Names(items[1..]) == names + Names(cut);
    ProperPrefix(names, Names(cut));
  }

  lemma ReadHeld(items: seq<Item>, k: nat, c: Codec)
    requires Faithful(c) && IsJournal(items) && k <= |Text(items, c)|
    ensures var n := Whole(items, k, c);
      Read(Text(items, c)[..k], c) == if n == 0 then Failure else Success(Held(items[..n], k > |Text(items[..n], c)|))
  {
    hide *;
    var n, torn := Whole(items, k, c), Torn(items, k, c);
    ReadLeft(items, k, c);
    LinesLeftAre(items, k, c);
    TornExactly(items, k, c);
    if n == 0 {
      ReadNothing(items[..n], torn, c);
    } else {
      ReadWhole(items, n, torn, c);
    }
  }

  /** A timeline, and behind it the marker of a torn end: of the last entry's time, or 0 without one. */
  predicate Marked(marked: seq<Entry>, timeline: seq<Entry>, torn: bool) {
    if !torn then marked == timeline
    else
      var t := if timeline == [] then 0 else timeline[|timeline| - 1].t;
      var note := "recording journal ended in a partly written line, which was dropped";
      marked == timeline + [Entry(t, "marker", note, None, false)]
  }

  /**
   Wherever the end cuts a journal, what reads back is what its whole lines hold, with one marker
   exactly if the cut went through a line; only without the whole header nothing reads.
   */
  lemma ReadCut(items: seq<Item>, k: nat, c: Codec)
    requires Faithful(c) && IsJournal(items) && k <= |Text(items, c)|
    ensures var n, read := Whole(items, k, c), Read(Text(items, c)[..k], c);
      if n == 0 then read == Failure
      else
        && read.Success?
        && Marked(read.value.timeline, Entries(items[..n][1..]), k > |Text(items[..n], c)|)
        && read.value.names == items[0].header.names + Names(items[..n][1..])
        && read.value.startedWallMs == items[0].header.startedWallMs && read.value.account == items[0].header.account
        && read.value.login == items[0].header.login && Some(read.value.shiftDraw) == items[0].header.shiftDraw
  {
    hide Text, Whole, Read, ProperNames, Faithful;
    ReadHeld(items, k, c);
  }

  lemma ReadNothing(none: seq<Item>, torn: seq<string>, c: Codec)
    requires none == []
    requires Unreadable(torn, c)
    ensures forall data :: Lines(data) == Encoded(none, c) + torn ==> Read(data, c) == Failure
  {
    assert Encoded(none, c) + torn == torn;
  }

  lemma ReadWhole(items: seq<Item>, n: nat, torn: seq<string>, c: Codec)
    requires Faithful(c) && IsJournal(items) && 0 < n <= |items|
    requires Unreadable(torn, c)
    ensures forall data :: Lines(data) == Encoded(items[..n], c) + torn ==>
              Read(data, c) == Success(Held(items[..n], torn != []))
  {
    hide ProperNames, Lines, ReadLines;
    JournalPrefix(items, n);
    var whole := items[..n];
    var lines := Encoded(whole, c) + torn;
    assert lines[0] == c.encode(items[0]) && lines[1..] == Encoded(whole[1..], c) + torn;
    ReadBody(whole[1..], torn, Begin(items[0].header).value, c);
  }

  // -- Writing ----------------------------------------------------------------------------------

  /** How a write goes: all of it, no file to write to, or a failure once some of it has reached the file. */
  datatype Disk = Writes | CannotOpen | Fails(reached: nat)

  /** What an entry is read back as. */
  function ReadBack(timeline: seq<Entry>): seq<Entry> {
    seq(|timeline|, i requires 0 <= i < |timeline| => EntryOf(RawOf(timeline[i])))
  }

  /** The items are a journal of these names and entries, with this header but for the names it has. */
  ghost predicate Journals(items: seq<Item>, h: Header, names: seq<string>, timeline: seq<Entry>) {
    && IsJournal(items)
    && items[0].header == h.(names := items[0].header.names)
    && items[0].header.names + Names(items[1..]) == names
    && Entries(items[1..]) == ReadBack(timeline)
  }

  /** A recording with its journal, whose fields start at `file`. */
  class Recording {
    const startedWallMs: int
    const account: int
    const login: Option<int>
    const shiftDraw: int
    const codec: Codec
    var timeline: seq<Entry>
    var names: seq<string>
    var file: string
    var created: bool
    var failed: bool
    var closed: bool
    /** Every item handed to the file so far, and how many names and entries these carry. */
    ghost var items: seq<Item>
    ghost var keptNames: nat
    ghost var keptEntries: nat

    ghost predicate Valid()
      reads this
    {
      && ProperNames(names) && keptNames <= |names| && keptEntries <= |timeline|
      && OnDisk()
      && (created ==> Journals(items, Blank(), names[..keptNames], timeline[..keptEntries]))
      && (!failed && !closed ==> if created then keptNames == |names| && keptEntries == |timeline| else timeline == [])
    }

    /** All of the items is in the file, or after a failed write some first part of them. */
    ghost predicate OnDisk()
      reads this
    {
      && (created <==> items != [])
      && file <= Text(items, codec)
      && (!failed ==> file == Text(items, codec))
    }

    function Blank(): Header {
      Header(FORMAT, startedWallMs, account, login, [], Some(shiftDraw))
    }

    constructor (startedWallMs: int, account: int, login: Option<int>, shiftDraw: int, codec: Codec)
      ensures Valid() && timeline == [] && names == [] && !created && !failed && !closed
      ensures this.startedWallMs == startedWallMs && this.account == account && this.login == login
      ensures this.shiftDraw == shiftDraw && this.codec == codec
    {
      this.startedWallMs, this.account, this.login := startedWallMs, account, login;
      this.shiftDraw, this.codec := shiftDraw, codec;
      timeline, names, file, created, failed, closed := [], [], "", false, false, false;
      items, keptNames, keptEntries := [], 0, 0;
    }

    /** `_append`: writes the items, or stops the journal for good. */
    method Append(more: seq<Item>, disk: Disk)
      requires more != [] && OnDisk()
      modifies this`file, this`created, this`failed, this`closed, this`timeline, this`items
      ensures old(failed) || old(closed) ==>
        file == old(file) && created == old(created) && failed == old(failed) && closed == old(closed)
        && timeline == old(timeline) && items == old(items)
      ensures !old(failed) && !old(closed) ==>
                failed == (disk.Fails? || (disk.CannotOpen? && !old(created))) && closed == failed
      ensures !old(failed) && !old(closed) ==>
                items == if disk.CannotOpen? && !old(created) then old(items) else old(items) + more
      ensures !old(failed) && !old(closed) && disk.Fails? ==>
                var text := Text(more, codec);
                file == old(file) + text[..if disk.reached < |text| then disk.reached else |text|]
      ensures !old(failed) && failed ==> timeline == WithMarker(old(timeline), JOURNAL_STOPPED)
      ensures old(failed) == failed ==> timeline == old(timeline)
      ensures OnDisk() && old(file) <= file
    {
      if failed || closed {
        return;
      }
      TextAppend(items, more, codec);
      if !created {
        if disk.CannotOpen? {
          Stop();
          return;
        }
        created := true;
      }
      items := items + more;
      var text := Text(more, codec);
      match disk {
        case Fails(reached) =>
          file := file + text[..if reached < |text| then reached else |text|];
          Stop();
        case _ =>
          file := file + text;
      }
    }

    /** After a failed write: nothing more goes to the file, and a marker says so. */
    method Stop()
      modifies this`failed, this`closed, this`timeline
      ensures failed && closed && timeline == WithMarker(old(timeline), JOURNAL_STOPPED)
    {
      failed, closed := true, true;
      timeline := WithMarker(timeline, JOURNAL_STOPPED);
    }

    method AddName(name: string, disk: Disk)
      requires Valid()
      modifies this
      ensures Valid() && old(file) <= file
      ensures var stripped := Whitespace.Strip(name);
        names == if |stripped| >= 3 && stripped !in old(names) then old(names) + [stripped] else old(names)
      ensures old(failed) ==> failed
      ensures timeline == if failed == old(failed) then old(timeline) else WithMarker(old(timeline), JOURNAL_STOPPED)
      ensures old(failed) || old(closed) ==> file == old(file)
    {
      hide Journals, ProperNames, Whitespace.Strip, Text;
      WithNameIsProper(names, name);
      var before := names;
      names := WithName(names, name);
      ghost var was, t := items, timeline;
      assert names[..keptNames] == before[..keptNames];
      if names != before && created {
        var added := names[|names| - 1];
        Append([Name(added)], disk);
        assert timeline[..keptEntries] == t[..keptEntries];
        if items != was {
          assert before[..keptNames] == before && t[..keptEntries] == t && names[..|names|] == names;
          JournalsName(was, Blank(), before, t, added);
          keptNames := |names|;
        }
      }
    }

    method Add(kind: string, note: string, message: Option<string>, t: int, typed: bool, disk: Disk)
      requires Valid()
      modifies this
      ensures Valid() && old(file) <= file && names == old(names) && (old(failed) ==> failed)
      ensures var entry := Entry(t, kind, note, message, typed);
        timeline == if failed == old(failed) then old(timeline) + [entry]
                    else WithMarker(old(timeline) + [entry], JOURNAL_STOPPED)
      ensures old(failed) || old(closed) ==> file == old(file)
    {
      hide Journals, ProperNames, Text, RawOf, LastTime;
      var entry := Entry(t, kind, note, message, typed);
      ghost var was, before := items, timeline;
      timeline := timeline + [entry];
      if created {
        Append([RawOf(entry)], disk);
        assert timeline[..keptEntries] == before[..keptEntries];
        if items != was {
          assert names[..keptNames] == names && before[..keptEntries] == before;
          assert timeline[..|before| + 1] == before + [entry];
          JournalsEntry(was, Blank(), names, before, entry);
          keptEntries := |before| + 1;
        }
      } else {
        Append([Head(Blank().(names := names)), RawOf(entry)], disk);
        if items != was {
          assert names[..|names|] == names && timeline[..|before| + 1] == [entry];
          JournalsFirst(Blank(), names, entry);
          assert items == [Head(Blank().(names := names)), RawOf(entry)];
          keptNames, keptEntries := |names|, |before| + 1;
        }
      }
    }

    method Close()
      requires Valid()
      modifies this`closed
      ensures Valid() && closed
    {
      closed := true;
    }

    method Remove()
      requires Valid()
      modifies this
      ensures timeline == old(timeline) && names == old(names) && failed == old(failed)
      ensures Valid() && closed && !created && file == ""
    {
      hide Journals, ProperNames;
      Close();
      if created {
        created, file, items := false, "", [];
      }
    }
  }

  lemma BodyGrows(items: seq<Item>, item: Item)
    requires items != []
    ensures (items + [item])[1..] == items[1..] + [item]
    ensures Names((items + [item])[1..]) == Names(items[1..]) + NameIn(item)
    ensures Entries((items + [item])[1..]) == Entries(items[1..]) + EntryIn(item)
  {
    assert (items + [item])[1..] == items[1..] + [item];
    NamesAppend(items[1..], [item]);
    EntriesAppend(items[1..], [item]);
    assert [item][1..] == [];
    assert Names([item]) == NameIn(item) + [] && Entries([item]) == EntryIn(item) + [];
  }

  lemma JournalsName(items: seq<Item>, h: Header, names: seq<string>, timeline: seq<Entry>, name: string)
    requires Journals(items, h, names, timeline) && ProperNames(names + [name])
    ensures Journals(items + [Name(name)], h, names + [name], timeline)
  {
    hide ProperNames;
    BodyGrows(items, Name(name));
    assert Entries(items[1..]) + [] == Entries(items[1..]);
    Regroup(items[0].header.names, Names(items[1..]), [name]);
  }

  lemma JournalsEntry(items: seq<Item>, h: Header, names: seq<string>, timeline: seq<Entry>, e: Entry)
    requires Journals(items, h, names, timeline)
    ensures Journals(items + [RawOf(e)], h, names, timeline + [e])
  {
    hide ProperNames;
    BodyGrows(items, RawOf(e));
    assert Names(items[1..]) + NameIn(RawOf(e)) == Names(items[1..]);
    assert EntryIn(RawOf(e)) == [EntryOf(RawOf(e))];
    assert ReadBack(timeline + [e]) == ReadBack(timeline) + [EntryOf(RawOf(e))];
  }

  lemma JournalsFirst(h: Header, names: seq<string>, e: Entry)
    requires ProperNames(names) && h.format == FORMAT && h.shiftDraw.Some?
    ensures Journals([Head(h.(names := names)), RawOf(e)], h, names, [e])
  {
    hide ProperNames;
    var items := [Head(h.(names := names))];
    assert items[1..] == [] && names + [] == names;
    assert Journals(items, h, names, []);
    JournalsEntry(items, h, names, [], e);
  }

  // -- Any session, ended anywhere --------------------------------------------------------------

  datatype Step =
    | AddingName(name: string, disk: Disk)
    | Adding(entry: Entry, disk: Disk)
    | Closing
    | Removing

  /** The names after those that a run adds. */
  function NamesAfter(names: seq<string>, steps: seq<Step>): seq<string> {
    if steps == [] then names
    else
      var before, last := NamesAfter(names, steps[..|steps| - 1]), steps[|steps| - 1];
      if last.AddingName? then WithName(before, last.name) else before
  }

  /** How many entries a run adds. */
  function Additions(steps: seq<Step>): nat {
    if steps == [] then 0
    else Additions(steps[..|steps| - 1]) + if steps[|steps| - 1].Adding? then 1 else 0
  }

  method Take(r: Recording, step: Step)
    requires r.Valid()
    modifies r
    ensures r.Valid() && (old(r.failed) ==> r.failed) && old(r.timeline) <= r.timeline
    ensures r.names == if step.AddingName? then WithName(old(r.names), step.name) else old(r.names)
    ensures |r.timeline| == |old(r.timeline)| + (if step.Adding? then 1 else 0)
                            + (if r.failed && !old(r.failed) then 1 else 0)
  {
    hide Recording.Valid, Whitespace.Strip;
    match step {
      case AddingName(name, disk) => r.AddName(name, disk);
      case Adding(e, disk) => r.Add(e.kind, e.note, e.message, e.t, e.typed, disk);
      case Closing => r.Close();
      case Removing => r.Remove();
    }
  }

  method RunAll(r: Recording, steps: seq<Step>)
    requires r.Valid()
    modifies r
    ensures r.Valid() && r.names == NamesAfter(old(r.names), steps)
    ensures old(r.timeline) <= r.timeline
    ensures |r.timeline| == |old(r.timeline)| + Additions(steps) + (if r.failed && !old(r.failed) then 1 else 0)
  {
    hide Recording.Valid, WithName;
    for i := 0 to |steps|
      invariant r.Valid() && r.names == NamesAfter(old(r.names), steps[..i])
      invariant old(r.timeline) <= r.timeline && (old(r.failed) ==> r.failed)
      invariant |r.timeline| == |old(r.timeline)| + Additions(steps[..i])
                                + (if r.failed && !old(r.failed) then 1 else 0)
    {
      assert steps[..i + 1][..i] == steps[..i];
      Take(r, steps[i]);
    }
    assert steps[..|steps|] == steps;
  }

  /** What a run's journal gives back of it: the first names and entries, and whether a line was torn. */
  function Recovered(r: Recording, names: nat, entries: nat, torn: bool): Session
    requires names <= |r.names| && entries <= |r.timeline|
    reads r
  {
    var timeline := ReadBack(r.timeline[..entries]);
    Ended(Session(r.startedWallMs, r.account, r.login, r.shiftDraw, r.names[..names], timeline), torn)
  }

  ghost function NamesHeld(items: seq<Item>): nat
    requires items != [] && items[0].Head?
  {
    |items[0].header.names + Names(items[1..])|
  }

  lemma HeldIs(r: Recording, n: nat, torn: bool)
    requires r.Valid() && r.created && 0 < n <= |r.items|
    ensures IsJournal(r.items) && IsJournal(r.items[..n])
    ensures NamesHeld(r.items[..n]) <= r.keptNames && |Entries(r.items[..n][1..])| <= r.keptEntries
    ensures Held(r.items[..n], torn) == Recovered(r, NamesHeld(r.items[..n]), |Entries(r.items[..n][1..])|, torn)
  {
    hide ProperNames;
    var items, whole := r.items, r.items[..n];
    JournalPrefix(items, n);
    var names, entries := items[0].header.names + Names(whole[1..]), Entries(whole[1..]);
    assert names == r.names[..|names|];
    assert entries == ReadBack(r.timeline[..|entries|]);
    assert [] + entries == entries;
  }

  lemma FileIs(r: Recording, k: nat)
    requires r.Valid() && k <= |r.file|
    ensures k <= |Text(r.items, r.codec)| && r.file[..k] == Text(r.items, r.codec)[..k]
    ensures r.created ==> IsJournal(r.items) && r.items != [] && r.items[0].Head?
  {
    hide Text, ProperNames;
  }

  lemma WholeHeader(items: seq<Item>, k: nat, c: Codec)
    requires items != []
    ensures Whole(items, k, c) > 0 <==> k >= |c.encode(items[0])|
  {
  }

  /** Without the whole header, nothing is read. */
  lemma NothingRecovered(r: Recording, k: nat)
    requires r.Valid() && Faithful(r.codec) && k <= |r.file|
    requires r.created ==> k < |r.codec.encode(r.items[0])|
    ensures Read(r.file[..k], r.codec) == Failure
  {
    if r.created {
      hide *;
      FileIs(r, k);
      WholeHeader(r.items, k, r.codec);
      ReadHeld(r.items, k, r.codec);
    } else {
      assert r.file == "" && r.file[..k] == "";
      LinesOf("", "");
    }
  }

  lemma RecoveryHeld(r: Recording, k: nat, whole: seq<Item>)
    requires r.Valid() && Faithful(r.codec) && k <= |r.file|
    requires r.created && k >= |r.codec.encode(r.items[0])| && whole == r.items[..Whole(r.items, k, r.codec)]
    ensures whole != [] && whole[0].Head?
    ensures NamesHeld(whole) <= r.keptNames && |Entries(whole[1..])| <= r.keptEntries
    ensures Read(r.file[..k], r.codec)
      == Success(Recovered(r, NamesHeld(whole), |Entries(whole[1..])|, k > |Text(whole, r.codec)|))
  {
    hide *;
    var items, c := r.items, r.codec;
    FileIs(r, k);
    WholeHeader(items, k, c);
    HeldIs(r, Whole(items, k, c), k > |Text(whole, c)|);
    ReadHeld(items, k, c);
  }

  /**
   Whatever was recorded, wherever a write failed and wherever the file was then cut: once the
   header is whole, exactly the names and entries of the whole lines are recovered, which are the
   recording's first ones, and one marker behind them exactly if a line was torn.
   */
  lemma Recovery(r: Recording, k: nat, whole: seq<Item>)
    requires r.Valid() && Faithful(r.codec) && k <= |r.file|
    requires r.created && k >= |r.codec.encode(r.items[0])| && whole == r.items[..Whole(r.items, k, r.codec)]
    ensures whole != [] && whole[0].Head?
    ensures var names, entries, read := NamesHeld(whole), |Entries(whole[1..])|, Read(r.file[..k], r.codec);
      && names <= r.keptNames && entries <= r.keptEntries && read.Success?
      && Marked(read.value.timeline, ReadBack(r.timeline[..entries]), k > |Text(whole, r.codec)|)
      && read.value.names == r.names[..names]
      && read.value.startedWallMs == r.startedWallMs && read.value.account == r.account
      && read.value.login == r.login && read.value.shiftDraw == r.shiftDraw
  {
    RecoveryHeld(r, k, whole);
    hide Read, Text, Whole, Faithful, Journals, ProperNames;
  }

  lemma {:induction false} AllWhole(items: seq<Item>, c: Codec)
    ensures Whole(items, |Text(items, c)|, c) == |items|
  {
    if items != [] {
      AllWhole(items[1..], c);
      assert |Text(items, c)| == |c.encode(items[0])| + 1 + |Text(items[1..], c)|;
    }
  }

  /** What the items carry is what was counted, and is all whole in an unbroken file. */
  lemma FileIsWhole(r: Recording)
    requires r.Valid() && r.created && !r.failed
    ensures r.items != [] && r.items[0].Head? && r.file == Text(r.items, r.codec)
    ensures |r.file| >= |r.codec.encode(r.items[0])|
    ensures NamesHeld(r.items) == r.keptNames && |Entries(r.items[1..])| == r.keptEntries
  {
    hide ProperNames;
  }

  /** An uncut journal whose writes all succeeded gives back everything it was told. */
  lemma RoundTrip(r: Recording)
    requires r.Valid() && Faithful(r.codec) && r.created && !r.failed
    ensures Read(r.file, r.codec) == Success(Recovered(r, r.keptNames, r.keptEntries, false))
  {
    hide *;
    FileIsWhole(r);
    AllWhole(r.items, r.codec);
    assert r.items[..|r.items|] == r.items && r.file[..|r.file|] == r.file;
    RecoveryHeld(r, |r.file|, r.items);
  }

  /** While the journal is open that is the whole recording, exactly if only markers are called typed. */
  lemma RoundTripWhileOpen(r: Recording)
    requires r.Valid() && Faithful(r.codec) && r.created && !r.failed && !r.closed
    ensures Read(r.file, r.codec)
        == Success(Session(r.startedWallMs, r.account, r.login, r.shiftDraw, r.names, r.timeline))
      <==> forall e <- r.timeline :: e.typed ==> e.kind == MARKER
  {
    hide Read, Text, Journals, ProperNames;
    RoundTrip(r);
    assert r.timeline[..|r.timeline|] == r.timeline && r.names[..|r.names|] == r.names;
    var back := ReadBack(r.timeline);
    assert forall i :: 0 <= i < |back| ==>
        (back[i] == r.timeline[i] <==> (r.timeline[i].typed ==> r.timeline[i].kind == MARKER));
    if forall i :: 0 <= i < |back| ==> back[i] == r.timeline[i] {
      assert back == r.timeline;
    }
  }
}
