/**
 A codec that meets what the journal asks of JSON: items are flattened to numbers, each with the
 lengths of its texts in front, and these written in unary. No encoding is the beginning of another.
 */
module JournalCodec {
  import opened Wrappers
  import opened Journal

  // -- Numbers ----------------------------------------------------------------------------------

  function Ones(n: nat, rest: string): string {
    if n == 0 then "." + rest else "1" + Ones(n - 1, rest)
  }

  function Number(i: int, rest: string): string {
    if i < 0 then "-" + Ones(-i, rest) else "+" + Ones(i, rest)
  }

  function Written(numbers: seq<int>): string {
    if numbers == [] then "" else Number(numbers[0], Written(numbers[1..]))
  }

  lemma {:induction false} OnesCancel(m: nat, n: nat, s: string, t: string)
    requires Ones(m, s) <= Ones(n, t)
    ensures m == n && s <= t
  {
    var a, b := Ones(m, s), Ones(n, t);
    assert a[0] == b[0];
    if m == 0 {
      assert a[1..] == s && b[1..] == t;
    } else {
      assert a[1..] == Ones(m - 1, s) && b[1..] == Ones(n - 1, t);
      OnesCancel(m - 1, n - 1, s, t);
    }
  }

  lemma NumberCancel(i: int, j: int, s: string, t: string)
    requires Number(i, s) <= Number(j, t)
    ensures i == j && s <= t
  {
    var a, b := Number(i, s), Number(j, t);
    assert a[0] == b[0] && a[1..] <= b[1..];
    assert a[1..] == Ones(if i < 0 then -i else i, s) && b[1..] == Ones(if j < 0 then -j else j, t);
    OnesCancel(if i < 0 then -i else i, if j < 0 then -j else j, s, t);
  }

  lemma {:induction false} WrittenCancel(a: seq<int>, b: seq<int>)
    requires Written(a) <= Written(b)
    ensures a <= b
  {
    if a != [] && b != [] {
      NumberCancel(a[0], b[0], Written(a[1..]), Written(b[1..]));
      WrittenCancel(a[1..], b[1..]);
      assert a == [a[0]] + a[1..] && b == [b[0]] + b[1..];
    }
  }

  lemma {:induction false} OnesAreOneLine(n: nat, rest: string)
    requires '\n' !in rest
    ensures '\n' !in Ones(n, rest)
  {
    if n > 0 {
      OnesAreOneLine(n - 1, rest);
    }
  }

  lemma {:induction false} WrittenIsOneLine(numbers: seq<int>)
    ensures '\n' !in Written(numbers)
  {
    if numbers != [] {
      WrittenIsOneLine(numbers[1..]);
      OnesAreOneLine(if numbers[0] < 0 then -numbers[0] else numbers[0], Written(numbers[1..]));
    }
  }

  // -- Items ------------------------------------------------------------------------------------

  function OfText(s: string, rest: seq<int>): seq<int> {
    [|s|] + seq(|s|, i requires 0 <= i < |s| => s[i] as int) + rest
  }

  function OfTexts(texts: seq<string>, rest: seq<int>): seq<int> {
    if texts == [] then [0] + rest else [1] + OfText(texts[0], OfTexts(texts[1..], rest))
  }

  function OfInt(o: Option<int>, rest: seq<int>): seq<int> {
    match o case None => [0] + rest case Some(i) => [1, i] + rest
  }

  function OfBool(o: Option<bool>, rest: seq<int>): seq<int> {
    match o case None => [0] + rest case Some(b) => [if b then 1 else 2] + rest
  }

  function OfPayload(o: Option<string>, rest: seq<int>): seq<int> {
    match o case None => [0] + rest case Some(s) => [1] + OfText(s, rest)
  }

  function Flat(item: Item): seq<int> {
    match item
    case Head(h) => [0, h.format, h.startedWallMs, h.account] + OfInt(h.login, OfTexts(h.names, OfInt(h.shiftDraw, [])))
    case Name(name) => [1] + OfText(name, [])
    case Raw(t, kind, note, payload, flag) => [2, t] + OfText(kind, OfText(note, OfPayload(payload, OfBool(flag, []))))
    case Alien => [3]
  }

  lemma TextCancel(a: string, b: string, s: seq<int>, t: seq<int>)
    requires OfText(a, s) <= OfText(b, t)
    ensures a == b && s <= t
  {
    var x, y := OfText(a, s), OfText(b, t);
    assert x[0] == y[0];
    forall i | 0 <= i < |a|
      ensures a[i] == b[i]
    {
      assert x[i + 1] == y[i + 1];
      assert x[i + 1] == a[i] as int && y[i + 1] == b[i] as int;
    }
    assert s == x[|a| + 1..] && t == y[|b| + 1..];
  }

  /** What is in front of both is in front of neither. */
  lemma Tails(x: seq<int>, y: seq<int>, n: nat)
    requires x <= y && n <= |x|
    ensures x[..n] == y[..n] && x[n..] <= y[n..]
  {
  }

  lemma {:induction false} TextsCancel(a: seq<string>, b: seq<string>, s: seq<int>, t: seq<int>)
    requires OfTexts(a, s) <= OfTexts(b, t)
    ensures a == b && s <= t
  {
    var x, y := OfTexts(a, s), OfTexts(b, t);
    Tails(x, y, 1);
    assert x[0] == y[0];
    if a == [] {
      assert x[1..] == s && y[1..] == t;
    } else {
      assert x[1..] == OfText(a[0], OfTexts(a[1..], s)) && y[1..] == OfText(b[0], OfTexts(b[1..], t));
      TextCancel(a[0], b[0], OfTexts(a[1..], s), OfTexts(b[1..], t));
      TextsCancel(a[1..], b[1..], s, t);
      assert a == [a[0]] + a[1..] && b == [b[0]] + b[1..];
    }
  }

  lemma OptionsCancel(a: Option<int>, b: Option<int>, s: seq<int>, t: seq<int>)
    requires OfInt(a, s) <= OfInt(b, t)
    ensures a == b && s <= t
  {
    var x, y := OfInt(a, s), OfInt(b, t);
    assert x[0] == y[0];
    var n := if a.None? then 1 else 2;
    assert n == 2 ==> x[1] == y[1];
    assert s == x[n..] && t == y[n..];
  }

  lemma PayloadCancel(a: Option<string>, b: Option<string>, s: seq<int>, t: seq<int>)
    requires OfPayload(a, s) <= OfPayload(b, t)
    ensures a == b && s <= t
  {
    var x, y := OfPayload(a, s), OfPayload(b, t);
    Tails(x, y, 1);
    assert x[0] == y[0];
    if a.None? {
      assert s == x[1..] && t == y[1..];
    } else {
      assert x[1..] == OfText(a.value, s) && y[1..] == OfText(b.value, t);
      TextCancel(a.value, b.value, s, t);
    }
  }

  lemma HeadCancel(a: Header, b: Header)
    requires Flat(Head(a)) <= Flat(Head(b))
    ensures a == b
  {
    var x, y := Flat(Head(a)), Flat(Head(b));
    Tails(x, y, 4);
    assert x[1] == y[1] && x[2] == y[2] && x[3] == y[3];
    var u, v := OfInt(a.shiftDraw, []), OfInt(b.shiftDraw, []);
    assert x[4..] == OfInt(a.login, OfTexts(a.names, u)) && y[4..] == OfInt(b.login, OfTexts(b.names, v));
    OptionsCancel(a.login, b.login, OfTexts(a.names, u), OfTexts(b.names, v));
    TextsCancel(a.names, b.names, u, v);
    OptionsCancel(a.shiftDraw, b.shiftDraw, [], []);
  }

  lemma RawCancel(a: Item, b: Item)
    requires a.Raw? && b.Raw? && Flat(a) <= Flat(b)
    ensures a == b
  {
    var x, y := Flat(a), Flat(b);
    Tails(x, y, 2);
    assert x[1] == y[1];
    var f, g := OfBool(a.flag, []), OfBool(b.flag, []);
    var p, q := OfPayload(a.payload, f), OfPayload(b.payload, g);
    assert x[2..] == OfText(a.kind, OfText(a.note, p)) && y[2..] == OfText(b.kind, OfText(b.note, q));
    TextCancel(a.kind, b.kind, OfText(a.note, p), OfText(b.note, q));
    TextCancel(a.note, b.note, p, q);
    PayloadCancel(a.payload, b.payload, f, g);
    assert f[0] == g[0];
  }

  lemma FlatCancel(a: Item, b: Item)
    requires Flat(a) <= Flat(b)
    ensures a == b
  {
    var x, y := Flat(a), Flat(b);
    assert x[0] == y[0];
    match a
    case Head(h) => HeadCancel(h, b.header);
    case Name(name) =>
      Tails(x, y, 1);
      assert x[1..] == OfText(name, []) && y[1..] == OfText(b.name, []);
      TextCancel(name, b.name, [], []);
    case Raw(_, _, _, _, _) => RawCancel(a, b);
    case Alien =>
  }

  // -- The codec --------------------------------------------------------------------------------

  function Encode(item: Item): string {
    Written(Flat(item))
  }

  ghost function Decode(text: string): Option<Item> {
    if item :| Encode(item) == text then Some(item) else None
  }

  /** No item's text begins another's. */
  lemma EncodeCancel(a: Item, b: Item)
    requires Encode(a) <= Encode(b)
    ensures a == b
  {
    WrittenCancel(Flat(a), Flat(b));
    FlatCancel(a, b);
  }

  lemma DecodeOf(item: Item)
    ensures Decode(Encode(item)) == Some(item) && '\n' !in Encode(item) && Encode(item) != ""
  {
    WrittenIsOneLine(Flat(item));
    assert Flat(item) != [];
    hide Encode;
    forall other: Item | Encode(other) == Encode(item)
      ensures other == item
    {
      EncodeCancel(other, item);
    }
  }

  lemma DecodeOfCut(item: Item, k: nat)
    requires k < |Encode(item)|
    ensures Decode(Encode(item)[..k]) == None
  {
    hide Encode;
    forall other: Item | Encode(other) == Encode(item)[..k]
      ensures false
    {
      EncodeCancel(other, item);
    }
  }

  /** What the journal assumes of JSON can be met. */
  lemma CodecExists() returns (c: Codec)
    ensures Faithful(c)
  {
    hide Encode, Decode;
    c := Codec(Encode, text => Decode(text));
    forall item: Item
      ensures c.decode(c.encode(item)) == Some(item) && '\n' !in c.encode(item)
    {
      DecodeOf(item);
    }
    forall item: Item, k | 0 <= k < |c.encode(item)|
      ensures c.decode(c.encode(item)[..k]) == None
    {
      DecodeOfCut(item, k);
    }
    DecodeOf(Alien);
    DecodeOfCut(Alien, 0);
    assert Encode(Alien)[..0] == "";
  }
}
