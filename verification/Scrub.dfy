/**
 Scrubbing recorded messages: `scrub`, `scrub_numbers` and `assert_free_text_clean` of
 `record_fixtures.py`. A message is a tree of set fields; a field's descriptor gives its name,
 whether it is required or repeated, and its type.
 */
module Scrub {
  import opened Wrappers

  const FAKE_ACCOUNT_ID := 1_000_001
  const FAKE_TRADER_LOGIN := 2_000_002
  const FAKE_TOKEN := "scrubbed-token"
  const SCRUBBED_TEXT := "scrubbed"
  const NUMBER_PLACEHOLDER := "<number>"

  const CLEARED_FIELDS := {
    "brokerName", "brokerTitleShort", "balance", "balanceVersion", "managerBonus", "ibBonus", "nonWithdrawableBonus",
    "registrationTimestamp", "traderLogin", "lastClosingDealTimestamp", "lastBalanceUpdateTimestamp", "holiday",
    "scheduleTimeZone"}
  const TOKEN_FIELDS := {"accessToken", "refreshToken"}
  const PRIVATE_TEXT_FIELDS := {"label", "comment", "clientOrderId", "externalNote", "clientId", "clientSecret"}
  const KEPT_TEXT_FIELDS := {
    ("ProtoErrorRes", "errorCode"), ("ProtoOAErrorRes", "errorCode"), ("ProtoOAOrderErrorEvent", "errorCode"),
    ("ProtoOAExecutionEvent", "errorCode"), ("ProtoOARefreshTokenRes", "tokenType"), ("ProtoOAVersionRes", "version"),
    ("ProtoOALightSymbol", "symbolName"), ("ProtoOALightSymbol", "description"), ("ProtoOAArchivedSymbol", "name"),
    ("ProtoOAArchivedSymbol", "description"), ("ProtoOAAsset", "name"), ("ProtoOAAsset", "displayName"),
    ("ProtoOAAssetClass", "name"), ("ProtoOASymbolCategory", "name"), ("ProtoOAHoliday", "name"),
    ("ProtoOASymbol", "measurementUnits"), ("ProtoOASymbol", "minCommissionAsset"),
    ("ProtoOATradeData", "measurementUnits")}

  // -- Digit runs ---------------------------------------------------------------------------

  /** What the pattern `\d` takes for a digit: the ten ASCII ones among others, and no `<number>`. */
  ghost predicate DigitClass(digit: char -> bool) {
    && (forall c :: '0' <= c <= '9' ==> digit(c))
    && (forall c :: c in NUMBER_PLACEHOLDER ==> !digit(c))
  }

  /** How many digits a text starts with. */
  function RunLength(text: string, digit: char -> bool): (n: nat)
    ensures n <= |text| && (n < |text| ==> !digit(text[n])) && forall i :: 0 <= i < n ==> digit(text[i])
  {
    if text == [] || !digit(text[0]) then 0 else 1 + RunLength(text[1..], digit)
  }

  /** The maximal digit runs of a text, in order. */
  function Runs(text: string, digit: char -> bool): seq<string>
    decreases |text|
  {
    if text == [] then []
    else
      var n := RunLength(text, digit);
      if n == 0 then Runs(text[1..], digit) else [text[..n]] + Runs(text[n..], digit)
  }

  /** The text with each digit run mapped by `fakes`, and any other one replaced. */
  function ScrubNumbers(text: string, fakes: map<string, string>, digit: char -> bool): string
    decreases |text|
  {
    if text == [] then []
    else
      var n := RunLength(text, digit);
      if n == 0 then [text[0]] + ScrubNumbers(text[1..], fakes, digit)
      else (if text[..n] in fakes then fakes[text[..n]] else NUMBER_PLACEHOLDER) + ScrubNumbers(text[n..], fakes, digit)
  }

  ghost predicate AllDigits(s: string, digit: char -> bool) {
    s != [] && forall i :: 0 <= i < |s| ==> digit(s[i])
  }

  /** A digit run can neither go on into `rest` nor begin in it. */
  predicate Breaks(rest: string, digit: char -> bool) {
    rest == [] || !digit(rest[0])
  }

  lemma {:induction false} RunLengthOf(run: string, rest: string, digit: char -> bool)
    requires (forall i :: 0 <= i < |run| ==> digit(run[i])) && Breaks(rest, digit)
    ensures RunLength(run + rest, digit) == |run|
  {
    if run == [] {
      assert run + rest == rest;
    } else {
      RunLengthOf(run[1..], rest, digit);
      assert (run + rest)[1..] == run[1..] + rest;
    }
  }

  lemma AfterRun(run: string, rest: string, digit: char -> bool)
    requires AllDigits(run, digit) && Breaks(rest, digit)
    ensures Runs(run + rest, digit) == [run] + Runs(rest, digit)
  {
    RunLengthOf(run, rest, digit);
    assert (run + rest)[..|run|] == run && (run + rest)[|run|..] == rest;
  }

  lemma {:induction false} AfterNonDigits(before: string, rest: string, digit: char -> bool)
    requires forall i :: 0 <= i < |before| ==> !digit(before[i])
    ensures Runs(before + rest, digit) == Runs(rest, digit)
  {
    if before == [] {
      assert before + rest == rest;
    } else {
      AfterNonDigits(before[1..], rest, digit);
      var text := before + rest;
      assert text[0] == before[0] && text[1..] == before[1..] + rest;
      assert RunLength(text, digit) == 0;
    }
  }

  /** A digit run is replaced by its fake, or by `<number>`, and what follows it is scrubbed by itself. */
  lemma RunReplaced(run: string, rest: string, fakes: map<string, string>, digit: char -> bool)
    requires AllDigits(run, digit) && Breaks(rest, digit)
    ensures ScrubNumbers(run + rest, fakes, digit)
      == (if run in fakes then fakes[run] else "<number>") + ScrubNumbers(rest, fakes, digit)
  {
    var text := run + rest;
    RunLengthOf(run, rest, digit);
    assert text[..|run|] == run && text[|run|..] == rest;
  }

  /** What is before the first digit stays. */
  lemma {:induction false} NonDigitsStay(before: string, rest: string, fakes: map<string, string>, digit: char -> bool)
    requires forall i :: 0 <= i < |before| ==> !digit(before[i])
    ensures ScrubNumbers(before + rest, fakes, digit) == before + ScrubNumbers(rest, fakes, digit)
  {
    if before == [] {
      assert before + rest == rest;
    } else {
      NonDigitsStay(before[1..], rest, fakes, digit);
      var text := before + rest;
      assert text[0] == before[0] && text[1..] == before[1..] + rest;
      assert RunLength(text, digit) == 0;
      assert before == [before[0]] + before[1..];
    }
  }

  /** What is scrubbed breaks runs where the text did. */
  lemma ScrubbedBreaks(text: string, fakes: map<string, string>, digit: char -> bool)
    requires Breaks(text, digit)
    ensures Breaks(ScrubNumbers(text, fakes, digit), digit)
  {
  }

  /** Every digit run left in a scrubbed text is a fake value. */
  lemma {:induction false} RunsLeft(text: string, fakes: map<string, string>, digit: char -> bool)
    requires DigitClass(digit) && forall run :: run in fakes ==> AllDigits(fakes[run], digit)
    ensures forall run :: run in Runs(ScrubNumbers(text, fakes, digit), digit) ==> run in fakes.Values
    decreases |text|
  {
    if text != [] {
      var n := RunLength(text, digit);
      if n == 0 {
        RunsLeft(text[1..], fakes, digit);
        AfterNonDigits([text[0]], ScrubNumbers(text[1..], fakes, digit), digit);
      } else {
        var rest := ScrubNumbers(text[n..], fakes, digit);
        RunsLeft(text[n..], fakes, digit);
        ScrubbedBreaks(text[n..], fakes, digit);
        if text[..n] in fakes {
          AfterRun(fakes[text[..n]], rest, digit);
        } else {
          AfterNonDigits(NUMBER_PLACEHOLDER, rest, digit);
        }
      }
    }
  }

  /** Scrubbing keeps exactly the texts whose every number is mapped to itself. */
  lemma {:induction false} KeptExactly(text: string, fakes: map<string, string>, digit: char -> bool)
    requires DigitClass(digit) && forall run :: run in fakes ==> AllDigits(fakes[run], digit)
    ensures ScrubNumbers(text, fakes, digit) == text
      <==> forall run <- Runs(text, digit) :: run in fakes && fakes[run] == run
    decreases |text|
  {
    if text != [] {
      var n := RunLength(text, digit);
      var scrubbed := ScrubNumbers(text, fakes, digit);
      if n == 0 {
        KeptExactly(text[1..], fakes, digit);
        assert scrubbed[1..] == ScrubNumbers(text[1..], fakes, digit);
        assert text == [text[0]] + text[1..];
      } else {
        var run := text[..n];
        KeptExactly(text[n..], fakes, digit);
        assert text == run + text[n..];
        assert Runs(text, digit)[0] == run;
        if run in fakes {
          ScrubbedBreaks(text[n..], fakes, digit);
          RunLengthOf(fakes[run], ScrubNumbers(text[n..], fakes, digit), digit);
          assert scrubbed[..|fakes[run]|] == fakes[run];
          assert scrubbed[|fakes[run]|..] == ScrubNumbers(text[n..], fakes, digit);
        } else {
          assert scrubbed[0] == '<' && digit(text[0]);
        }
      }
    }
  }

  // -- Messages ---------------------------------------------------------------------------------

  /** A field's items: one of them unless the field is repeated. `numeric` types take any number. */
  datatype Value =
    | Int64s(ints: seq<int>)
    | Texts(texts: seq<string>)
    | Messages(items: seq<Message>)
    | Others(numeric: bool, content: seq<int>)

  /** A set field, with what its descriptor says. */
  datatype Field = Field(name: string, required: bool, repeated: bool, value: Value)

  /** A message with its type's name and its set fields in order. */
  datatype Message = Message(owner: string, fields: seq<Field>)

  /** The identifiers to hide. */
  datatype Ids = Ids(account: Option<int>, login: Option<int>)

  const FAKE_IDS := Ids(Some(FAKE_ACCOUNT_ID), Some(FAKE_TRADER_LOGIN))

  function Digits(n: nat): (s: string)
    ensures s != [] && forall i :: 0 <= i < |s| ==> '0' <= s[i] <= '9'
  {
    (if n < 10 then [] else Digits(n / 10)) + [('0' as int + n % 10) as char]
  }

  function Str(n: int): string {
    if n < 0 then "-" + Digits(-n) else Digits(n)
  }

  /** What decimal digits stand for. */
  ghost function DecimalValue(s: string): int {
    if s == [] then 0 else 10 * DecimalValue(s[..|s| - 1]) + s[|s| - 1] as int - '0' as int
  }

  lemma {:induction false} DigitsExactly(n: nat)
    ensures DecimalValue(Digits(n)) == n && (n > 0 ==> Digits(n)[0] != '0')
  {
    var s := Digits(n);
    if n >= 10 {
      DigitsExactly(n / 10);
      assert s[..|s| - 1] == Digits(n / 10);
    } else {
      assert s[..|s| - 1] == [];
    }
  }

  /** A number's text: its decimal digits without a leading zero, and a sign only below zero. */
  lemma StrExactly(n: int)
    ensures if n < 0 then Str(n) == "-" + Digits(-n) && DecimalValue(Digits(-n)) == -n
            else Str(n)[0] != '-' && DecimalValue(Str(n)) == n
  {
    DigitsExactly(if n < 0 then -n else n);
  }

  /** What each identifier's text is replaced by; the login's entry is the later one. */
  function FakesOf(ids: Ids): map<string, string> {
    var first: map<string, string> :=
      match ids.account
      case Some(account) => map[Str(account) := Str(FAKE_ACCOUNT_ID)]
      case None => map[];
    match ids.login
    case Some(login) => first[Str(login) := Str(FAKE_TRADER_LOGIN)]
    case None => first
  }

  const ALLOWED := {Str(FAKE_ACCOUNT_ID), Str(FAKE_TRADER_LOGIN)}

  predicate IsFreeText(owner: string, name: string) {
    name !in CLEARED_FIELDS + TOKEN_FIELDS + PRIVATE_TEXT_FIELDS && (owner, name) !in KEPT_TEXT_FIELDS
  }

  function ScrubText(owner: string, name: string, text: string, ids: Ids, digit: char -> bool): string {
    if name in PRIVATE_TEXT_FIELDS then SCRUBBED_TEXT
    else if IsFreeText(owner, name) then ScrubNumbers(text, FakesOf(ids), digit)
    else text
  }

  function ScrubInt(i: int, ids: Ids): int {
    if ids.account == Some(i) then FAKE_ACCOUNT_ID
    else if ids.login == Some(i) then FAKE_TRADER_LOGIN
    else i
  }

  /** The field set to a number; a repeated field and one of another type refuse it. */
  function SetNumber(f: Field, n: int): Option<Field> {
    if f.repeated then None
    else match f.value
      case Int64s(_) => Some(f.(value := Int64s([n])))
      case Others(true, _) => Some(f.(value := Others(true, [n])))
      case _ => None
  }

  function SetToken(f: Field): Option<Field> {
    if f.repeated || !f.value.Texts? then None else Some(f.(value := Texts([FAKE_TOKEN])))
  }

  /** What `_scrub_in_place` makes of a message, or `None` if setting a field raises. */
  function ScrubMessage(m: Message, ids: Ids, digit: char -> bool): Option<Message>
    decreases m
  {
    match ScrubFields(m.owner, m.fields, ids, digit)
    case Some(fields) => Some(Message(m.owner, fields))
    case None => None
  }

  function ScrubFields(owner: string, fields: seq<Field>, ids: Ids, digit: char -> bool): (r: Option<seq<Field>>)
    ensures r.Some? ==> |r.value| <= |fields|
    decreases fields
  {
    if fields == [] then Some([])
    else
      match (ScrubField(owner, fields[0], ids, digit), ScrubFields(owner, fields[1..], ids, digit))
      case (Some(first), Some(rest)) => Some(first + rest)
      case _ => None
  }

  /** What is left in a field's place: nothing if it is cleared. */
  function ScrubField(owner: string, f: Field, ids: Ids, digit: char -> bool): (r: Option<seq<Field>>)
    ensures r.Some? ==> |r.value| == if f.name in CLEARED_FIELDS && !f.required then 0 else 1
    ensures r.Some? ==> forall g <- r.value :: g == f.(value := g.value)
    decreases f
  {
    if f.name in CLEARED_FIELDS then
      if f.required then One(SetNumber(f, 0)) else Some([])
    else if f.value.Messages? then
      match ScrubItems(f.value.items, ids, digit)
      case Some(items) => Some([f.(value := Messages(items))])
      case None => None
    else if f.name == "ctidTraderAccountId" then One(SetNumber(f, FAKE_ACCOUNT_ID))
    else if f.name in TOKEN_FIELDS then One(SetToken(f))
    else
      match f.value
      case Texts(texts) =>
        var scrubbed := seq(|texts|, i requires 0 <= i < |texts| => ScrubText(owner, f.name, texts[i], ids, digit));
        Some([f.(value := Texts(scrubbed))])
      case Int64s(ints) =>
        Some([f.(value := Int64s(seq(|ints|, i requires 0 <= i < |ints| => ScrubInt(ints[i], ids))))])
      case _ => Some([f])
  }

  function One(f: Option<Field>): Option<seq<Field>> {
    match f case Some(field) => Some([field]) case None => None
  }

  function ScrubItems(items: seq<Message>, ids: Ids, digit: char -> bool): Option<seq<Message>>
    decreases items
  {
    if items == [] then Some([])
    else
      match (ScrubMessage(items[0], ids, digit), ScrubItems(items[1..], ids, digit))
      case (Some(first), Some(rest)) => Some([first] + rest)
      case _ => None
  }

  // -- What scrubbing does to a field -----------------------------------------------------------

  /** The fakes are what the identifiers' own texts are replaced by. */
  lemma FakesExactly(ids: Ids, run: string)
    ensures run in FakesOf(ids) <==> (ids.account.Some? && run == Str(ids.account.value))
                                     || (ids.login.Some? && run == Str(ids.login.value))
    ensures ids.login.Some? ==> FakesOf(ids)[Str(ids.login.value)] == "2000002"
    ensures ids.account.Some? && (ids.login.Some? ==> Str(ids.login.value) != Str(ids.account.value)) ==>
              FakesOf(ids)[Str(ids.account.value)] == "1000001"
  {
    FakeTexts();
  }

  lemma FakeTexts()
    ensures Str(1_000_001) == "1000001" && Str(2_000_002) == "2000002"
  {
    assert Digits(1) == "1" && Digits(10) == "10" && Digits(100) == "100" && Digits(1_000) == "1000";
    assert Digits(10_000) == "10000" && Digits(100_000) == "100000";
    assert Digits(2) == "2" && Digits(20) == "20" && Digits(200) == "200" && Digits(2_000) == "2000";
    assert Digits(20_000) == "20000" && Digits(200_000) == "200000";
  }

  /** A field of whole numbers with no name of its own: each identifier is replaced, and nothing else. */
  lemma IntsSwept(owner: string, f: Field, ids: Ids, digit: char -> bool)
    requires f.value.Int64s? && f.name !in CLEARED_FIELDS + TOKEN_FIELDS && f.name != "ctidTraderAccountId"
    ensures var r := ScrubField(owner, f, ids, digit);
      && r.Some? && |r.value| == 1 && r.value[0].value.Int64s? && |r.value[0].value.ints| == |f.value.ints|
      && forall i :: 0 <= i < |f.value.ints| ==>
           r.value[0].value.ints[i] == if ids.account == Some(f.value.ints[i]) then 1_000_001
                                       else if ids.login == Some(f.value.ints[i]) then 2_000_002
                                       else f.value.ints[i]
  {
  }

  /** A field of texts with no token name: private ones are replaced whole, free ones lose their numbers. */
  lemma TextsSwept(owner: string, f: Field, ids: Ids, digit: char -> bool)
    requires f.value.Texts? && f.name !in CLEARED_FIELDS + TOKEN_FIELDS && f.name != "ctidTraderAccountId"
    ensures var r := ScrubField(owner, f, ids, digit);
      && r.Some? && |r.value| == 1 && r.value[0].value.Texts? && |r.value[0].value.texts| == |f.value.texts|
      && forall i :: 0 <= i < |f.value.texts| ==>
           r.value[0].value.texts[i] == if f.name in PRIVATE_TEXT_FIELDS then "scrubbed"
                                        else if (owner, f.name) in KEPT_TEXT_FIELDS then f.value.texts[i]
                                        else ScrubNumbers(f.value.texts[i], FakesOf(ids), digit)
  {
  }

  /** Nothing at any depth, but below a field that is cleared, refuses the value scrubbing sets. */
  ghost predicate Settable(m: Message)
    decreases m
  {
    forall f <- m.fields :: SettableField(f)
  }

  ghost predicate SettableField(f: Field)
    decreases f
  {
    if f.name in CLEARED_FIELDS then f.required ==> TakesNumber(f)
    else if f.value.Messages? then forall item <- f.value.items :: Settable(item)
    else if f.name == "ctidTraderAccountId" then TakesNumber(f)
    else f.name in TOKEN_FIELDS ==> !f.repeated && f.value.Texts?
  }

  predicate TakesNumber(f: Field) {
    !f.repeated && (f.value.Int64s? || (f.value.Others? && f.value.numeric))
  }

  /** Scrubbing raises exactly if some field refuses its value, whatever the ids. */
  lemma {:induction false} ScrubsExactly(m: Message, ids: Ids, digit: char -> bool)
    ensures ScrubMessage(m, ids, digit).Some? <==> Settable(m)
    decreases m
  {
    FieldsScrubExactly(m.owner, m.fields, ids, digit);
  }

  lemma {:induction false} FieldsScrubExactly(owner: string, fields: seq<Field>, ids: Ids, digit: char -> bool)
    ensures ScrubFields(owner, fields, ids, digit).Some? <==> forall f <- fields :: SettableField(f)
    decreases fields
  {
    if fields != [] {
      var f := fields[0];
      if f.value.Messages? && f.name !in CLEARED_FIELDS {
        ItemsScrubExactly(f.value.items, ids, digit);
      }
      FieldsScrubExactly(owner, fields[1..], ids, digit);
      assert fields == [f] + fields[1..];
      assert ScrubField(owner, f, ids, digit).Some? <==> SettableField(f);
    }
  }

  lemma {:induction false} ItemsScrubExactly(items: seq<Message>, ids: Ids, digit: char -> bool)
    ensures ScrubItems(items, ids, digit).Some? <==> forall item <- items :: Settable(item)
    decreases items
  {
    if items != [] {
      ScrubsExactly(items[0], ids, digit);
      ItemsScrubExactly(items[1..], ids, digit);
      assert items == [items[0]] + items[1..];
    }
  }

  // -- What a scrubbed message is ---------------------------------------------------------------

  /** At any depth, nothing that scrubbing with `ids` takes out: said without reference to the scrubbing. */
  ghost predicate Clean(m: Message, ids: Ids, digit: char -> bool)
    decreases m
  {
    forall f <- m.fields :: CleanField(m.owner, f, ids, digit)
  }

  ghost predicate CleanField(owner: string, f: Field, ids: Ids, digit: char -> bool)
    decreases f
  {
    if f.name in CLEARED_FIELDS then f.required && Holds(f, 0)
    else if f.value.Messages? then forall item <- f.value.items :: Clean(item, ids, digit)
    else if f.name == "ctidTraderAccountId" then Holds(f, FAKE_ACCOUNT_ID)
    else if f.name in TOKEN_FIELDS then !f.repeated && f.value == Texts([FAKE_TOKEN])
    else match f.value
      case Int64s(ints) => forall i <- ints :: CleanInt(i, ids)
      case Texts(texts) => forall text <- texts :: CleanText(owner, f.name, text, ids, digit)
      case _ => true
  }

  predicate Holds(f: Field, n: int) {
    !f.repeated && (f.value == Int64s([n]) || f.value == Others(true, [n]))
  }

  /** Not one of the ids, unless the id is its own fake. */
  predicate CleanInt(i: int, ids: Ids) {
    && (ids.account == Some(i) ==> i == FAKE_ACCOUNT_ID)
    && (ids.login == Some(i) && ids.account != Some(i) ==> i == FAKE_TRADER_LOGIN)
  }

  /** Nothing of the owner's own, and in free text no number but those that are their own fakes. */
  ghost predicate CleanText(owner: string, name: string, text: string, ids: Ids, digit: char -> bool) {
    && (name in PRIVATE_TEXT_FIELDS ==> text == SCRUBBED_TEXT)
    && (IsFreeText(owner, name) ==>
          forall run <- Runs(text, digit) :: run in FakesOf(ids) && FakesOf(ids)[run] == run)
  }

  lemma FakesAreDigits(ids: Ids, digit: char -> bool)
    requires DigitClass(digit)
    ensures forall run :: run in FakesOf(ids) ==> AllDigits(FakesOf(ids)[run], digit)
    ensures FakesOf(ids).Values <= ALLOWED
  {
  }

  lemma FakesOfFakes()
    ensures FakesOf(FAKE_IDS).Keys == ALLOWED
    ensures forall run :: run in FakesOf(FAKE_IDS) ==> FakesOf(FAKE_IDS)[run] == run
  {
  }

  lemma TextIsClean(owner: string, name: string, text: string, ids: Ids, digit: char -> bool)
    requires DigitClass(digit)
    ensures CleanText(owner, name, ScrubText(owner, name, text, ids, digit), FAKE_IDS, digit)
  {
    FakesAreDigits(ids, digit);
    RunsLeft(text, FakesOf(ids), digit);
    FakesOfFakes();
  }

  lemma {:induction false} FieldIsClean(owner: string, f: Field, ids: Ids, digit: char -> bool)
    requires DigitClass(digit) && ScrubField(owner, f, ids, digit).Some?
    ensures forall g <- ScrubField(owner, f, ids, digit).value :: CleanField(owner, g, FAKE_IDS, digit)
    decreases f
  {
    if f.name !in CLEARED_FIELDS {
      match f.value
      case Messages(items) =>
        ItemsAreClean(items, ids, digit);
      case Texts(texts) =>
        forall text <- texts
          ensures CleanText(owner, f.name, ScrubText(owner, f.name, text, ids, digit), FAKE_IDS, digit)
        {
          TextIsClean(owner, f.name, text, ids, digit);
        }
      case _ =>
    }
  }

  lemma {:induction false} ItemsAreClean(items: seq<Message>, ids: Ids, digit: char -> bool)
    requires DigitClass(digit) && ScrubItems(items, ids, digit).Some?
    ensures forall m <- ScrubItems(items, ids, digit).value :: Clean(m, FAKE_IDS, digit)
    decreases items
  {
    if items != [] {
      ScrubbedIsClean(items[0], ids, digit);
      ItemsAreClean(items[1..], ids, digit);
    }
  }

  lemma {:induction false} FieldsAreClean(owner: string, fields: seq<Field>, ids: Ids, digit: char -> bool)
    requires DigitClass(digit) && ScrubFields(owner, fields, ids, digit).Some?
    ensures forall f <- ScrubFields(owner, fields, ids, digit).value :: CleanField(owner, f, FAKE_IDS, digit)
    decreases fields
  {
    if fields != [] {
      FieldIsClean(owner, fields[0], ids, digit);
      FieldsAreClean(owner, fields[1..], ids, digit);
    }
  }

  /** Whatever ids were hidden, the message left is clean of everything but the fakes. */
  lemma {:induction false} ScrubbedIsClean(m: Message, ids: Ids, digit: char -> bool)
    requires DigitClass(digit) && ScrubMessage(m, ids, digit).Some?
    ensures Clean(ScrubMessage(m, ids, digit).value, FAKE_IDS, digit)
    decreases m
  {
    FieldsAreClean(m.owner, m.fields, ids, digit);
  }

  lemma TextUnchanged(owner: string, name: string, text: string, ids: Ids, digit: char -> bool)
    requires DigitClass(digit)
    ensures ScrubText(owner, name, text, ids, digit) == text <==> CleanText(owner, name, text, ids, digit)
  {
    FakesAreDigits(ids, digit);
    KeptExactly(text, FakesOf(ids), digit);
  }

  lemma TextsUnchanged(owner: string, f: Field, ids: Ids, digit: char -> bool)
    requires DigitClass(digit) && f.value.Texts?
    requires f.name !in CLEARED_FIELDS + TOKEN_FIELDS && f.name != "ctidTraderAccountId"
    ensures ScrubField(owner, f, ids, digit) == Some([f]) <==> CleanField(owner, f, ids, digit)
  {
    var texts := f.value.texts;
    var scrubbed := seq(|texts|, i requires 0 <= i < |texts| => ScrubText(owner, f.name, texts[i], ids, digit));
    assert [f.(value := Texts(scrubbed))][0].value.texts == scrubbed && [f][0] == f;
    forall i | 0 <= i < |texts| ensures scrubbed[i] == texts[i] <==> CleanText(owner, f.name, texts[i], ids, digit) {
      TextUnchanged(owner, f.name, texts[i], ids, digit);
    }
    if forall i :: 0 <= i < |texts| ==> scrubbed[i] == texts[i] {
      assert scrubbed == texts;
    }
  }

  lemma IntsUnchanged(owner: string, f: Field, ids: Ids, digit: char -> bool)
    requires f.value.Int64s?
    requires f.name !in CLEARED_FIELDS + TOKEN_FIELDS && f.name != "ctidTraderAccountId"
    ensures ScrubField(owner, f, ids, digit) == Some([f]) <==> CleanField(owner, f, ids, digit)
  {
    var ints := f.value.ints;
    var scrubbed := seq(|ints|, i requires 0 <= i < |ints| => ScrubInt(ints[i], ids));
    assert [f.(value := Int64s(scrubbed))][0].value.ints == scrubbed && [f][0] == f;
    assert forall i :: 0 <= i < |ints| ==> (scrubbed[i] == ints[i] <==> CleanInt(ints[i], ids));
    if forall i :: 0 <= i < |ints| ==> scrubbed[i] == ints[i] {
      assert scrubbed == ints;
    }
  }

  lemma {:induction false} FieldUnchanged(owner: string, f: Field, ids: Ids, digit: char -> bool)
    requires DigitClass(digit)
    ensures ScrubField(owner, f, ids, digit) == Some([f]) <==> CleanField(owner, f, ids, digit)
    decreases f
  {
    if f.name !in CLEARED_FIELDS {
      if f.value.Messages? {
        ItemsUnchanged(f.value.items, ids, digit);
      } else if f.name !in TOKEN_FIELDS && f.name != "ctidTraderAccountId" {
        match f.value
        case Texts(_) => TextsUnchanged(owner, f, ids, digit);
        case Int64s(_) => IntsUnchanged(owner, f, ids, digit);
        case _ =>
      }
    }
  }

  lemma {:induction false} ItemsUnchanged(items: seq<Message>, ids: Ids, digit: char -> bool)
    requires DigitClass(digit)
    ensures ScrubItems(items, ids, digit) == Some(items) <==> forall item <- items :: Clean(item, ids, digit)
    decreases items
  {
    if items != [] {
      UnchangedExactly(items[0], ids, digit);
      ItemsUnchanged(items[1..], ids, digit);
      assert items == [items[0]] + items[1..];
      var rest := ScrubItems(items[1..], ids, digit);
      if ScrubItems(items, ids, digit) == Some(items) {
        assert rest.value == ScrubItems(items, ids, digit).value[1..];
      }
    }
  }

  lemma {:induction false} FieldsUnchanged(owner: string, fields: seq<Field>, ids: Ids, digit: char -> bool)
    requires DigitClass(digit)
    ensures ScrubFields(owner, fields, ids, digit) == Some(fields)
      <==> forall f <- fields :: CleanField(owner, f, ids, digit)
    decreases fields
  {
    if fields != [] {
      FieldUnchanged(owner, fields[0], ids, digit);
      FieldsUnchanged(owner, fields[1..], ids, digit);
      assert fields == [fields[0]] + fields[1..];
      var first := ScrubField(owner, fields[0], ids, digit);
      var rest := ScrubFields(owner, fields[1..], ids, digit);
      if ScrubFields(owner, fields, ids, digit) == Some(fields) {
        assert |first.value| == 1 && first.value == (first.value + rest.value)[..1];
        assert rest.value == (first.value + rest.value)[1..];
      }
    }
  }

  /** Scrubbing leaves exactly the clean messages as they are. */
  lemma {:induction false} UnchangedExactly(m: Message, ids: Ids, digit: char -> bool)
    requires DigitClass(digit)
    ensures ScrubMessage(m, ids, digit) == Some(m) <==> Clean(m, ids, digit)
    decreases m
  {
    FieldsUnchanged(m.owner, m.fields, ids, digit);
  }

  /** What `rescrub_bytes` relies on: a recorded message comes out of a second scrubbing as it is. */
  lemma RescrubUnchanged(m: Message, ids: Ids, digit: char -> bool)
    requires DigitClass(digit) && ScrubMessage(m, ids, digit).Some?
    ensures var scrubbed := ScrubMessage(m, ids, digit).value; ScrubMessage(scrubbed, FAKE_IDS, digit) == Some(scrubbed)
  {
    ScrubbedIsClean(m, ids, digit);
    UnchangedExactly(ScrubMessage(m, ids, digit).value, FAKE_IDS, digit);
  }

  /** Each field is scrubbed by itself, and what is left stands in the fields' order. */
  lemma {:induction false} FieldsApart(owner: string, a: seq<Field>, b: seq<Field>, ids: Ids, digit: char -> bool)
    requires ScrubFields(owner, a, ids, digit).Some? && ScrubFields(owner, b, ids, digit).Some?
    ensures ScrubFields(owner, a + b, ids, digit)
      == Some(ScrubFields(owner, a, ids, digit).value + ScrubFields(owner, b, ids, digit).value)
  {
    var after := ScrubFields(owner, b, ids, digit).value;
    if a == [] {
      assert a + b == b && [] + after == after;
    } else {
      FieldsApart(owner, a[1..], b, ids, digit);
      assert (a + b)[1..] == a[1..] + b && (a + b)[0] == a[0];
      var first, rest := ScrubField(owner, a[0], ids, digit).value, ScrubFields(owner, a[1..], ids, digit).value;
      assert (first + rest) + after == first + (rest + after);
    }
  }

  /** A field with nothing to hide stays as it is, wherever it stands and whatever is hidden beside it. */
  lemma CleanFieldStays(owner: string, a: seq<Field>, f: Field, b: seq<Field>, ids: Ids, digit: char -> bool)
    requires DigitClass(digit) && CleanField(owner, f, ids, digit)
    requires ScrubFields(owner, a, ids, digit).Some? && ScrubFields(owner, b, ids, digit).Some?
    ensures ScrubMessage(Message(owner, a + [f] + b), ids, digit)
      == Some(Message(owner, ScrubFields(owner, a, ids, digit).value + [f] + ScrubFields(owner, b, ids, digit).value))
  {
    FieldUnchanged(owner, f, ids, digit);
    hide ScrubField, CleanField, DigitClass;
    assert ScrubFields(owner, [f] + b, ids, digit) == Some([f] + ScrubFields(owner, b, ids, digit).value) by {
      assert ([f] + b)[1..] == b;
    }
    hide ScrubFields;
    FieldsApart(owner, a, [f] + b, ids, digit);
    assert a + [f] + b == a + ([f] + b);
    var before, after := ScrubFields(owner, a, ids, digit).value, ScrubFields(owner, b, ids, digit).value;
    assert before + [f] + after == before + ([f] + after);
  }

  // -- Free text --------------------------------------------------------------------------------

  /** Whether `assert_free_text_clean` lets a message pass. */
  predicate FreeTextClean(m: Message, allowed: set<string>, digit: char -> bool)
    decreases m
  {
    forall f <- m.fields :: FieldTextClean(m.owner, f, allowed, digit)
  }

  predicate FieldTextClean(owner: string, f: Field, allowed: set<string>, digit: char -> bool)
    decreases f
  {
    match f.value
    case Messages(items) => forall item <- items :: FreeTextClean(item, allowed, digit)
    case Texts(texts) =>
      IsFreeText(owner, f.name) ==> forall text <- texts :: forall run <- Runs(text, digit) :: run in allowed
    case _ => true
  }

  lemma {:induction false} CleanMessagesPass(m: Message, digit: char -> bool)
    requires Clean(m, FAKE_IDS, digit)
    ensures FreeTextClean(m, ALLOWED, digit)
    decreases m
  {
    FakesOfFakes();
    forall f <- m.fields ensures FieldTextClean(m.owner, f, ALLOWED, digit) {
      if f.value.Messages? && f.name !in CLEARED_FIELDS {
        forall item <- f.value.items ensures FreeTextClean(item, ALLOWED, digit) {
          CleanMessagesPass(item, digit);
        }
      }
    }
  }

  /** The check before a fixture is written never raises on what was scrubbed. */
  lemma ScrubbedTextPasses(m: Message, ids: Ids, digit: char -> bool)
    requires DigitClass(digit) && ScrubMessage(m, ids, digit).Some?
    ensures FreeTextClean(ScrubMessage(m, ids, digit).value, ALLOWED, digit)
  {
    ScrubbedIsClean(m, ids, digit);
    CleanMessagesPass(ScrubMessage(m, ids, digit).value, digit);
  }

  // -- Identifiers ------------------------------------------------------------------------------

  /** Some 64-bit field, at any depth, holds `n`. */
  predicate Carries(m: Message, n: int)
    decreases m
  {
    exists f <- m.fields :: FieldCarries(f, n)
  }

  predicate FieldCarries(f: Field, n: int)
    decreases f
  {
    match f.value
    case Int64s(ints) => n in ints
    case Messages(items) => exists item <- items :: Carries(item, n)
    case _ => false
  }

  /** The ids that scrubbing can hide: not those it writes itself. */
  predicate Hideable(ids: Ids, n: int) {
    && (ids.account == Some(n) || ids.login == Some(n))
    && n != 0 && n != FAKE_ACCOUNT_ID
    && (n == FAKE_TRADER_LOGIN ==> ids.account == Some(n) && ids.login in {None, Some(n)})
  }

  lemma {:induction false} MessageHides(m: Message, ids: Ids, digit: char -> bool, n: int)
    requires Hideable(ids, n) && ScrubMessage(m, ids, digit).Some?
    ensures !Carries(ScrubMessage(m, ids, digit).value, n)
    decreases m
  {
    FieldsHide(m.owner, m.fields, ids, digit, n);
  }

  lemma {:induction false} FieldsHide(owner: string, fields: seq<Field>, ids: Ids, digit: char -> bool, n: int)
    requires Hideable(ids, n) && ScrubFields(owner, fields, ids, digit).Some?
    ensures forall f <- ScrubFields(owner, fields, ids, digit).value :: !FieldCarries(f, n)
    decreases fields
  {
    if fields != [] {
      var f := fields[0];
      if f.value.Messages? && f.name !in CLEARED_FIELDS {
        ItemsHide(f.value.items, ids, digit, n);
      }
      FieldsHide(owner, fields[1..], ids, digit, n);
    }
  }

  lemma {:induction false} ItemsHide(items: seq<Message>, ids: Ids, digit: char -> bool, n: int)
    requires Hideable(ids, n) && ScrubItems(items, ids, digit).Some?
    ensures forall m <- ScrubItems(items, ids, digit).value :: !Carries(m, n)
    decreases items
  {
    if items != [] {
      MessageHides(items[0], ids, digit, n);
      ItemsHide(items[1..], ids, digit, n);
    }
  }

  /** A real id is hidden in every message exactly when it is none of the values scrubbing puts in. */
  lemma HiddenExactly(ids: Ids, digit: char -> bool, n: int)
    requires ids.account == Some(n) || ids.login == Some(n)
    ensures Hideable(ids, n)
      <==> forall m: Message :: ScrubMessage(m, ids, digit).Some? ==> !Carries(ScrubMessage(m, ids, digit).value, n)
  {
    if Hideable(ids, n) {
      forall m: Message | ScrubMessage(m, ids, digit).Some?
        ensures !Carries(ScrubMessage(m, ids, digit).value, n)
      {
        MessageHides(m, ids, digit, n);
      }
    } else if n == 0 {
      Shown("balance", true, 1, 0, ids, digit);
    } else if n == FAKE_ACCOUNT_ID {
      Shown("ctidTraderAccountId", true, 1, n, ids, digit);
    } else {
      var login := ids.login.value;
      assert seq(1, i requires 0 <= i < |[login]| => ScrubInt([login][i], ids)) == [n];
      Shown("orderId", true, login, n, ids, digit);
    }
  }

  /** A message of one 64-bit field, which scrubbing leaves with `n`. */
  lemma Shown(name: string, required: bool, i: int, n: int, ids: Ids, digit: char -> bool)
    requires ScrubField("ProtoOAOrder", Field(name, required, false, Int64s([i])), ids, digit)
      == Some([Field(name, required, false, Int64s([n]))])
    ensures exists m: Message :: ScrubMessage(m, ids, digit).Some? && Carries(ScrubMessage(m, ids, digit).value, n)
  {
    var f := Field(name, required, false, Int64s([i]));
    var m := Message("ProtoOAOrder", [f]);
    assert m.fields[1..] == [] && ScrubFields(m.owner, m.fields[1..], ids, digit) == Some([]);
    var left := [Field(name, required, false, Int64s([n]))];
    assert left + [] == left;
    assert ScrubFields(m.owner, m.fields, ids, digit) == Some(left);
    var scrubbed := ScrubMessage(m, ids, digit).value;
    assert scrubbed.fields[0] == Field(name, required, false, Int64s([n]));
    assert FieldCarries(scrubbed.fields[0], n);
  }
}
