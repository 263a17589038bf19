/** Which texts the parser takes as values, and which value each of them is. */
module JsonForms {
  import opened Json
  import opened JsonText

  /** A value as it is written, with the white space in front of each of its tokens. */
  datatype Form =
    | Word(space: Bytes, v: Value)
    | Numeral(space: Bytes, lexeme: Bytes)
    | Quoted(space: Bytes, pieces: seq<Piece>)
    | Array(space: Bytes, inner: Bytes, items: seq<Item>)
    | Object(space: Bytes, inner: Bytes, entries: seq<Entry>)

  datatype Item = Item(val: Form, after: Bytes)

  datatype Entry = Entry(space: Bytes, key: seq<Piece>, colon: Bytes, val: Form, after: Bytes)

  predicate Blank(s: Bytes) { forall c :: c in s ==> c as int in {32, 9, 10, 13} }

  const NUMERIC: Bytes := "0123456789+-.eE"

  predicate Good(f: Form, strtod: Bytes -> bool)
    decreases f
  {
    Blank(f.space) &&
    match f
    case Word(_, v) => v.Null? || v.Bool?
    case Numeral(_, l) =>
      l != [] && l[0] in "0123456789-" && (forall c :: c in l ==> c in NUMERIC) && strtod(l)
    case Quoted(_, ps) => AllAllowed(ps)
    case Array(_, inner, items) =>
      Blank(inner) && forall i :: 0 <= i < |items| ==> Good(items[i].val, strtod) && Blank(items[i].after)
    case Object(_, inner, entries) =>
      Blank(inner) && forall i :: 0 <= i < |entries| ==> GoodEntry(entries[i], strtod)
  }

  predicate GoodEntry(e: Entry, strtod: Bytes -> bool)
    decreases e
  {
    Blank(e.space) && AllAllowed(e.key) && Blank(e.colon) && Good(e.val, strtod) && Blank(e.after)
  }

  predicate GoodItems(items: seq<Item>, strtod: Bytes -> bool) {
    forall i :: 0 <= i < |items| ==> Good(items[i].val, strtod) && Blank(items[i].after)
  }

  predicate GoodEntries(entries: seq<Entry>, strtod: Bytes -> bool) {
    forall i :: 0 <= i < |entries| ==> GoodEntry(entries[i], strtod)
  }

  function StringText(ps: seq<Piece>): Bytes { "\"" + PiecesText(ps) + "\"" }

  function FormText(f: Form): Bytes
    decreases f, 1
  {
    f.space +
    match f
    case Word(_, v) => if v == Bool(true) then "true" else if v == Bool(false) then "false" else "null"
    case Numeral(_, l) => l
    case Quoted(_, ps) => StringText(ps)
    case Array(_, inner, items) => "[" + inner + ItemsText(items) + "]"
    case Object(_, inner, entries) => "{" + inner + EntriesText(entries) + "}"
  }

  function ItemsText(items: seq<Item>): Bytes
    decreases items, 0
  {
    if items == [] then [] else
      FormText(items[0].val) + items[0].after + if |items| == 1 then [] else "," + ItemsText(items[1..])
  }

  function EntryText(e: Entry): Bytes
    decreases e, 0
  {
    e.space + StringText(e.key) + e.colon + ":" + FormText(e.val) + e.after
  }

  function EntriesText(entries: seq<Entry>): Bytes
    decreases entries, 0
  {
    if entries == [] then [] else
      EntryText(entries[0]) + if |entries| == 1 then [] else "," + EntriesText(entries[1..])
  }

  function FormValue(f: Form, strtod: Bytes -> bool): Value
    requires Good(f, strtod)
    decreases f, 1
  {
    match f
    case Word(_, v) => v
    case Numeral(_, l) => Num(l)
    case Quoted(_, ps) => Str(PiecesBytes(ps))
    case Array(_, _, items) => Arr(ItemValues(items, strtod))
    case Object(_, _, entries) => Obj(Stored([], entries, strtod))
  }

  function ItemValues(items: seq<Item>, strtod: Bytes -> bool): (vs: seq<Value>)
    requires GoodItems(items, strtod)
    decreases items, 0
  {
    if items == [] then [] else [FormValue(items[0].val, strtod)] + ItemValues(items[1..], strtod)
  }

  function EntryMember(e: Entry, strtod: Bytes -> bool): Member
    requires GoodEntry(e, strtod)
    decreases e, 0
  {
    Member(PiecesBytes(e.key), FormValue(e.val, strtod))
  }

  /** The members so far with those of the entries stored one after the other. */
  function Stored(ms: seq<Member>, entries: seq<Entry>, strtod: Bytes -> bool): seq<Member>
    requires GoodEntries(entries, strtod)
    decreases entries, 0
  {
    if entries == [] then ms else Stored(Put(ms, EntryMember(entries[0], strtod)), entries[1..], strtod)
  }

  /** What follows a number does not go on with it. */
  predicate Ends(f: Form, post: Bytes) { f.Numeral? && post != [] ==> post[0] !in NUMERIC }

  // White space.

  lemma {:induction false} SpaceSkipped(space: Bytes, post: Bytes)
    requires Blank(space)
    ensures SkipSpace(space + post) == SkipSpace(post)
    decreases |space|
  {
    if space == [] {
      assert space + post == post;
    } else {
      assert space[0] in space && forall c :: c in space[1..] ==> c in space;
      assert (space + post)[1..] == space[1..] + post;
      SpaceSkipped(space[1..], post);
    }
  }

  lemma {:induction false} SkippedOnce(s: Bytes)
    ensures SkipSpace(SkipSpace(s)) == SkipSpace(s)
    ensures SkipSpace(s) != [] ==> !IsSpace(SkipSpace(s)[0])
  {
    if s != [] && IsSpace(s[0]) { SkippedOnce(s[1..]); }
  }

  lemma ParseSpace(space: Bytes, post: Bytes, strtod: Bytes -> bool)
    requires Blank(space)
    ensures Parse(space + post, strtod) == Parse(post, strtod)
    ensures forall c :: Expect(space + post, c) == Expect(post, c)
  {
    hide StringBody, Match, Items, Members, Number, IsSpace;
    SpaceSkipped(space, post);
  }

  lemma NoSpace()
    ensures Blank([])
  {
  }

  lemma ExpectAfter(after: Bytes, c: Byte, post: Bytes)
    requires Blank(after) && !IsSpace(c)
    ensures Expect(after + ([c] + post), c) == Ok((), post)
    ensures forall d: Byte :: d != c ==> Expect(after + ([c] + post), d) == Bad([c] + post)
  {
    hide IsSpace;
    SpaceSkipped(after, [c] + post);
    SpaceKept([c] + post);
    assert ([c] + post)[1..] == post;
  }

  // Every form is read as its value.

  lemma {:induction false} RunOf(l: Bytes, post: Bytes)
    requires (forall c :: c in l ==> c in NUMERIC) && (post != [] ==> post[0] !in NUMERIC)
    ensures NumberRun(l + post) == |l|
  {
    if l == [] {
      assert l + post == post;
    } else {
      assert l[0] in l && forall c :: c in l[1..] ==> c in l;
      assert (l + post)[1..] == l[1..] + post;
      RunOf(l[1..], post);
    }
  }

  lemma WordRead(f: Form, post: Bytes, strtod: Bytes -> bool)
    requires Good(f, strtod) && (f.Word? || f.Numeral? || f.Quoted?) && Ends(f, post)
    ensures Parse(FormText(f) + post, strtod) == Ok(FormValue(f, strtod), post)
  {
    hide *;
    SpaceOf(f, strtod);
    SpaceInFront(f, post);
    var body := Body(f) + post;
    ParseSpace(f.space, body, strtod);
    match f
    case Word(_, v) => PlainWord(f, post, strtod);
    case Numeral(_, l) => NumeralRead(f, post, strtod);
    case Quoted(_, ps) => QuotedValue(f, post, strtod);
  }

  /** What is behind the white space of a form. */
  function Body(f: Form): Bytes { FormText(f)[|f.space|..] }

  lemma SpaceInFront(f: Form, post: Bytes)
    ensures FormText(f) + post == f.space + (Body(f) + post)
  {
    hide ItemsText, EntriesText, PiecesText;
  }

  lemma PlainWord(f: Form, post: Bytes, strtod: Bytes -> bool)
    requires Good(f, strtod) && f.Word?
    ensures Parse(Body(f) + post, strtod) == Ok(FormValue(f, strtod), post)
  {
    hide Parse;
    WordRoundTrip(f.v, post, strtod);
    assert Body(f) == Write(f.v);
  }

  lemma NumeralRead(f: Form, post: Bytes, strtod: Bytes -> bool)
    requires Good(f, strtod) && f.Numeral? && Ends(f, post)
    ensures Parse(Body(f) + post, strtod) == Ok(FormValue(f, strtod), post)
  {
    hide Parse, Number, Blank;
    NumberRead(f.lexeme, post, strtod);
    DigitsParse(f.lexeme, post, strtod);
    assert Body(f) == f.lexeme;
  }

  lemma DigitsParse(l: Bytes, post: Bytes, strtod: Bytes -> bool)
    requires l != [] && l[0] in "0123456789-"
    ensures Parse(l + post, strtod) == Number(l + post, strtod)
  {
    hide StringBody, Items, Members, Match, Expect, Number, SkipSpace;
    assert (l + post)[0] == l[0];
    SpaceKept(l + post);
  }

  lemma NumberRead(l: Bytes, post: Bytes, strtod: Bytes -> bool)
    requires (forall c :: c in l ==> c in NUMERIC) && (post != [] ==> post[0] !in NUMERIC) && strtod(l)
    ensures Number(l + post, strtod) == Ok(Num(l), post)
  {
    hide NumberRun;
    RunOf(l, post);
    assert (l + post)[..|l|] == l && (l + post)[|l|..] == post;
  }

  lemma QuotedValue(f: Form, post: Bytes, strtod: Bytes -> bool)
    requires Good(f, strtod) && f.Quoted?
    ensures Parse(Body(f) + post, strtod) == Ok(FormValue(f, strtod), post)
  {
    hide StringBody, Items, Members, Match, Expect, Number, PiecesText, PiecesBytes, AllAllowed;
    QuotedRead(f.pieces, post);
    assert Body(f) == StringText(f.pieces);
  }

  lemma QuotedRead(ps: seq<Piece>, post: Bytes)
    requires AllAllowed(ps)
    ensures var s := StringText(ps) + post;
      && s == "\"" + s[1..] && StringBody(s[1..], []) == Ok(PiecesBytes(ps), post)
  {
    hide StringBody, PiecesText, PiecesBytes, AllAllowed;
    StringRead(ps, post, []);
    assert (StringText(ps) + post)[1..] == PiecesText(ps) + "\"" + post;
    assert [] + PiecesBytes(ps) == PiecesBytes(ps);
  }

  /** The text that the parser takes for a form is read as the form's value, and what follows is left. */
  lemma {:induction false} FormRead(f: Form, post: Bytes, strtod: Bytes -> bool)
    requires Good(f, strtod) && Ends(f, post)
    ensures Parse(FormText(f) + post, strtod) == Ok(FormValue(f, strtod), post)
    decreases f, 2
  {
    hide *;
    if f.Array? {
      ArrayParts(f, post, strtod);
      ParseSpace(f.space, "[" + (f.inner + (ItemsText(f.items) + ("]" + post))), strtod);
      if f.items == [] {
        ArrayEmpty(f.inner, post, strtod);
      } else {
        ItemsRead(f.items, [], post, strtod);
        ArrayOpens(f.inner, f.items, post, strtod);
        assert [] + ItemValues(f.items, strtod) == ItemValues(f.items, strtod);
      }
    } else if f.Object? {
      ObjectParts(f, post, strtod);
      ParseSpace(f.space, "{" + (f.inner + (EntriesText(f.entries) + ("}" + post))), strtod);
      if f.entries == [] {
        ObjectEmpty(f.inner, post, strtod);
      } else {
        EntriesRead(f.entries, [], post, strtod);
        ObjectOpens(f.inner, f.entries, post, strtod);
      }
    } else {
      WordRead(f, post, strtod);
    }
  }

  lemma ArrayParts(f: Form, post: Bytes, strtod: Bytes -> bool)
    requires Good(f, strtod) && f.Array?
    ensures Blank(f.space) && Blank(f.inner) && GoodItems(f.items, strtod)
    ensures FormText(f) + post == f.space + ("[" + (f.inner + (ItemsText(f.items) + ("]" + post))))
    ensures FormValue(f, strtod) == Arr(ItemValues(f.items, strtod))
  {
    hide ItemsText, ItemValues, Blank;
  }

  lemma ObjectParts(f: Form, post: Bytes, strtod: Bytes -> bool)
    requires Good(f, strtod) && f.Object?
    ensures Blank(f.space) && Blank(f.inner) && GoodEntries(f.entries, strtod)
    ensures FormText(f) + post == f.space + ("{" + (f.inner + (EntriesText(f.entries) + ("}" + post))))
    ensures FormValue(f, strtod) == Obj(Stored([], f.entries, strtod))
  {
    hide EntriesText, Stored, Blank, GoodEntry;
  }

  lemma ArrayEmpty(inner: Bytes, post: Bytes, strtod: Bytes -> bool)
    requires Blank(inner)
    ensures Parse("[" + (inner + (ItemsText([]) + ("]" + post))), strtod) == Ok(Arr(ItemValues([], strtod)), post)
  {
    hide Expect, Items, Blank;
    var s := "[" + (inner + (ItemsText([]) + ("]" + post)));
    assert s[1..] == inner + ("]" + post);
    ExpectAfter(inner, ']', post);
  }

  lemma ObjectEmpty(inner: Bytes, post: Bytes, strtod: Bytes -> bool)
    requires Blank(inner)
    ensures Parse("{" + (inner + (EntriesText([]) + ("}" + post))), strtod) == Ok(Obj(Stored([], [], strtod)), post)
  {
    hide Expect, Members, Blank;
    var s := "{" + (inner + (EntriesText([]) + ("}" + post)));
    assert s[1..] == inner + ("}" + post);
    ExpectAfter(inner, '}', post);
  }

  /** A form starts, behind its white space, with none of the bytes that close or part. */
  lemma FormStarts(f: Form, strtod: Bytes -> bool)
    requires Good(f, strtod)
    ensures Body(f) != [] && !IsSpace(Body(f)[0]) && Body(f)[0] != ']' && Body(f)[0] != '}'
  {
    hide ItemsText, EntriesText, PiecesText, AllAllowed, Blank;
    if f.Numeral? { assert Body(f) == f.lexeme; }
  }

  /** The space in front of a text may be skipped before. */
  lemma SkipFirst(s: Bytes, strtod: Bytes -> bool)
    ensures Parse(SkipSpace(s), strtod) == Parse(s, strtod)
    ensures forall c :: Expect(SkipSpace(s), c) == Expect(s, c)
  {
    hide StringBody, Match, Items, Members, Number, IsSpace;
    SkippedOnce(s);
  }

  lemma ItemsSkip(s: Bytes, acc: seq<Value>, strtod: Bytes -> bool)
    ensures Items(SkipSpace(s), acc, strtod) == Items(s, acc, strtod)
  {
    hide Parse, Expect, SkipSpace;
    SkipFirst(s, strtod);
  }

  lemma MembersSkip(s: Bytes, acc: seq<Member>, strtod: Bytes -> bool)
    ensures Members(SkipSpace(s), acc, strtod) == Members(s, acc, strtod)
  {
    hide Parse, Expect, SkipSpace, StringBody, Put;
    SkipFirst(s, strtod);
  }

  lemma SkipsTo(f: Form, post: Bytes, strtod: Bytes -> bool)
    requires Good(f, strtod)
    ensures var t := SkipSpace(FormText(f) + post); t != [] && !IsSpace(t[0]) && t[0] != ']' && t[0] != '}'
  {
    hide *;
    FormStarts(f, strtod);
    SpaceOf(f, strtod);
    SpaceInFront(f, post);
    SpaceSkipped(f.space, Body(f) + post);
    SpaceKept(Body(f) + post);
  }

  lemma SpaceOf(f: Form, strtod: Bytes -> bool)
    requires Good(f, strtod)
    ensures Blank(f.space)
  {
    hide Blank, AllAllowed;
  }

  lemma ArrayOpens(inner: Bytes, items: seq<Item>, post: Bytes, strtod: Bytes -> bool)
    requires Blank(inner) && items != [] && GoodItems(items, strtod)
    ensures var t := ItemsText(items) + ("]" + post); Parse("[" + (inner + t), strtod) == Items(t, [], strtod)
  {
    hide Items, Good, FormText, Blank, SkipSpace, ItemsText;
    var t := ItemsText(items) + ("]" + post);
    var f, more := items[0].val, ItemsAfter(items, post);
    assert t == FormText(f) + more;
    SkipsTo(f, more, strtod);
    ItemsSkip(t, [], strtod);
    OpenAndSkip('[', ']', inner, t);
    BracketSpace('[');
    assert ("[" + (inner + t))[1..] == inner + t;
  }

  function ItemsAfter(items: seq<Item>, post: Bytes): (t: Bytes)
    requires items != []
    ensures ItemsText(items) + ("]" + post) == FormText(items[0].val) + t
  {
    items[0].after + ((if |items| == 1 then [] else "," + ItemsText(items[1..])) + ("]" + post))
  }

  /** The closing bracket is not there, and white space is skipped in looking for it. */
  lemma OpenAndSkip(open: Byte, close: Byte, inner: Bytes, t: Bytes)
    requires Blank(inner) && SkipSpace(t) != [] && SkipSpace(t)[0] != close
    ensures Expect(inner + t, close) == Bad(SkipSpace(t))
  {
    SpaceSkipped(inner, t);
  }

  lemma BracketSpace(open: Byte)
    requires open == '[' || open == '{'
    ensures forall t :: SkipSpace([open] + t) == [open] + t
  {
  }

  lemma ObjectOpens(inner: Bytes, entries: seq<Entry>, post: Bytes, strtod: Bytes -> bool)
    requires Blank(inner) && entries != [] && GoodEntries(entries, strtod)
    ensures var t := EntriesText(entries) + ("}" + post); Parse("{" + (inner + t), strtod) == Members(t, [], strtod)
  {
    hide Members, Blank, EntriesText, StringText, EntryText, SkipSpace;
    var t := EntriesText(entries) + ("}" + post);
    var e, more := entries[0], EntriesAfter(entries, post);
    assert GoodEntry(e, strtod);
    EntryStarts(e, more, strtod);
    MembersSkip(t, [], strtod);
    OpenAndSkip('{', '}', inner, t);
    BracketSpace('{');
    assert ("{" + (inner + t))[1..] == inner + t;
  }

  function EntriesAfter(entries: seq<Entry>, post: Bytes): (t: Bytes)
    requires entries != []
    ensures EntriesText(entries) + ("}" + post) == EntryText(entries[0]) + t
  {
    (if |entries| == 1 then [] else "," + EntriesText(entries[1..])) + ("}" + post)
  }

  lemma EntryStarts(e: Entry, post: Bytes, strtod: Bytes -> bool)
    requires GoodEntry(e, strtod)
    ensures var t := SkipSpace(EntryText(e) + post); t != [] && t[0] == '"'
  {
    hide Good, FormText, Blank, PiecesText, AllAllowed;
    var body := StringText(e.key) + (e.colon + (":" + (FormText(e.val) + (e.after + post))));
    assert EntryText(e) + post == e.space + body;
    SpaceSkipped(e.space, body);
    SpaceKept(body);
  }

  /** One item read, with the white space behind it, and what comes then. */
  lemma ItemStep(s: Bytes, acc: seq<Value>, v: Value, after: Bytes, c: Byte, post: Bytes, strtod: Bytes -> bool)
    requires Parse(s, strtod) == Ok(v, after + ([c] + post)) && Blank(after) && !IsSpace(c)
    ensures c == ',' ==> Items(s, acc, strtod) == Items(post, acc + [v], strtod)
    ensures c == ']' ==> Items(s, acc, strtod) == Ok(Arr(acc + [v]), post)
  {
    hide Parse, Expect, IsSpace, Blank;
    ExpectAfter(after, c, post);
    NoSpace();
    ExpectAfter([], c, post);
    assert [] + ([c] + post) == [c] + post;
  }

  lemma MemberStep(s: Bytes, acc: seq<Member>, m: Member, after: Bytes, c: Byte, post: Bytes, strtod: Bytes -> bool)
    requires ParseMember(s, strtod) == Ok(m, after + ([c] + post)) && Blank(after) && !IsSpace(c)
    ensures c == ',' ==> Members(s, acc, strtod) == Members(post, Put(acc, m), strtod)
    ensures c == '}' ==> Members(s, acc, strtod) == Ok(Obj(Put(acc, m)), post)
  {
    hide ParseMember, Expect, IsSpace, Blank, Put;
    ExpectAfter(after, c, post);
    NoSpace();
    ExpectAfter([], c, post);
    assert [] + ([c] + post) == [c] + post;
  }

  /** White space, a comma or a bracket does not go on with a number. */
  lemma EndsThere(f: Form, after: Bytes, c: Byte, post: Bytes)
    requires Blank(after) && c in ",]}"
    ensures Ends(f, after + ([c] + post)) && !IsSpace(c)
  {
    if after != [] { assert after[0] in after; }
  }

  lemma ItemValuesIs(items: seq<Item>, acc: seq<Value>, strtod: Bytes -> bool)
    requires GoodItems(items, strtod) && items != []
    ensures Good(items[0].val, strtod) && Blank(items[0].after) && GoodItems(items[1..], strtod)
    ensures var v := FormValue(items[0].val, strtod);
      && acc + [v] + ItemValues(items[1..], strtod) == acc + ItemValues(items, strtod)
      && (|items| == 1 ==> ItemValues(items, strtod) == [v])
  {
    hide Good, Blank, FormValue, ItemValues;
    FirstValue(items, strtod);
    InARow(acc, [FormValue(items[0].val, strtod)], ItemValues(items[1..], strtod));
  }

  lemma FirstValue(items: seq<Item>, strtod: Bytes -> bool)
    requires GoodItems(items, strtod) && items != []
    ensures GoodItems(items[1..], strtod)
    ensures var v := [FormValue(items[0].val, strtod)];
      && ItemValues(items, strtod) == v + ItemValues(items[1..], strtod)
      && (|items| == 1 ==> ItemValues(items, strtod) == v)
  {
    hide Good, Blank, FormValue;
    if |items| == 1 { assert items[1..] == []; }
  }

  lemma InARow<T>(a: seq<T>, b: seq<T>, c: seq<T>)
    ensures a + b + c == a + (b + c)
  {
  }

  lemma {:induction false} ItemsRead(items: seq<Item>, acc: seq<Value>, post: Bytes, strtod: Bytes -> bool)
    requires items != [] && GoodItems(items, strtod)
    ensures Items(ItemsText(items) + ("]" + post), acc, strtod) == Ok(Arr(acc + ItemValues(items, strtod)), post)
    decreases items, 1
  {
    hide Parse, FormText, Expect, Good, GoodItems, Items, Blank, FormValue, ItemsText, ItemValues, Ends, IsSpace;
    ItemValuesIs(items, acc, strtod);
    var f, after := items[0].val, items[0].after;
    var v := FormValue(f, strtod);
    if |items| == 1 {
      assert ItemsAfter(items, post) == after + ("]" + post);
      EndsThere(f, after, ']', post);
      FormRead(f, after + ("]" + post), strtod);
      ItemStep(ItemsText(items) + ("]" + post), acc, v, after, ']', post, strtod);
    } else {
      var tail := ItemsText(items[1..]) + ("]" + post);
      assert ItemsAfter(items, post) == after + ("," + tail);
      EndsThere(f, after, ',', tail);
      FormRead(f, after + ("," + tail), strtod);
      ItemStep(ItemsText(items) + ("]" + post), acc, v, after, ',', tail, strtod);
      ItemsRead(items[1..], acc + [v], post, strtod);
    }
  }

  lemma {:induction false} EntryRead(e: Entry, c: Byte, post: Bytes, strtod: Bytes -> bool)
    requires GoodEntry(e, strtod) && c in ",}"
    ensures ParseMember(EntryText(e) + ([c] + post), strtod) == Ok(EntryMember(e, strtod), e.after + ([c] + post))
    decreases e, 3
  {
    hide Parse, FormText, Expect, Good, Blank, FormValue, StringBody, PiecesText, PiecesBytes, AllAllowed, IsSpace;
    var tail := e.after + ([c] + post);
    var fromColon := ":" + (FormText(e.val) + tail);
    var quoted := StringText(e.key) + (e.colon + fromColon);
    assert EntryText(e) + ([c] + post) == e.space + quoted;
    QuotedRead(e.key, e.colon + fromColon);
    NotSpaces();
    ExpectAfter(e.space, '"', quoted[1..]);
    assert quoted == ['"'] + quoted[1..];
    ExpectAfter(e.colon, ':', FormText(e.val) + tail);
    EndsThere(e.val, e.after, c, post);
    FormRead(e.val, tail, strtod);
  }

  lemma NotSpaces()
    ensures !IsSpace('"') && !IsSpace(':')
  {
  }

  lemma {:induction false} EntriesRead(entries: seq<Entry>, acc: seq<Member>, post: Bytes, strtod: Bytes -> bool)
    requires entries != [] && GoodEntries(entries, strtod)
    ensures Members(EntriesText(entries) + ("}" + post), acc, strtod) == Ok(Obj(Stored(acc, entries, strtod)), post)
    decreases entries, 1
  {
    hide ParseMember, EntryText, EntriesText, GoodEntry, Members, Blank, EntryMember, Put;
    var e := entries[0];
    var m := EntryMember(e, strtod);
    EntryBlank(e, strtod);
    if |entries| == 1 {
      assert EntriesAfter(entries, post) == "}" + post;
      EntryRead(e, '}', post, strtod);
      EndsThere(e.val, e.after, '}', post);
      MemberStep(EntriesText(entries) + ("}" + post), acc, m, e.after, '}', post, strtod);
      assert entries[1..] == [];
    } else {
      var tail := EntriesText(entries[1..]) + ("}" + post);
      assert EntriesAfter(entries, post) == "," + tail;
      EntryRead(e, ',', tail, strtod);
      EndsThere(e.val, e.after, ',', tail);
      MemberStep(EntriesText(entries) + ("}" + post), acc, m, e.after, ',', tail, strtod);
      EntriesRead(entries[1..], Put(acc, m), post, strtod);
    }
  }

  lemma EntryBlank(e: Entry, strtod: Bytes -> bool)
    requires GoodEntry(e, strtod)
    ensures Blank(e.after)
  {
  }

  // And the parser takes nothing else.

  lemma {:induction false} SpaceFrom(s: Bytes) returns (space: Bytes)
    ensures Blank(space) && s == space + SkipSpace(s)
    decreases |s|
  {
    if s != [] && IsSpace(s[0]) {
      var more := SpaceFrom(s[1..]);
      space := [s[0]] + more;
      assert s == [s[0]] + s[1..];
    } else {
      space := [];
    }
  }

  /** What was expected has been found behind some white space. */
  lemma ExpectFrom(s: Bytes, c: Byte) returns (space: Bytes)
    ensures Blank(space)
    ensures Expect(s, c).Ok? ==> s == space + ([c] + Expect(s, c).rest)
    ensures Expect(s, c).Bad? ==> s == space + Expect(s, c).rest
  {
    hide Blank, IsSpace;
    space := SpaceFrom(s);
  }

  lemma MatchFrom(s: Bytes, p: Bytes)
    requires Match(s, p).Ok?
    ensures s == p + Match(s, p).rest
    decreases |p|
  {
    hide Match;
    MatchSteps(s, p);
    if p != [] {
      MatchFrom(s[1..], p[1..]);
      var rest := Match(s, p).rest;
      assert s == [s[0]] + s[1..];
      assert p + rest == [p[0]] + (p[1..] + rest);
    } else {
      assert [] + s == s;
    }
  }

  lemma MatchSteps(s: Bytes, p: Bytes)
    requires Match(s, p).Ok?
    ensures p == [] ==> Match(s, p).rest == s
    ensures p != [] ==> s != [] && s[0] == p[0] && Match(s, p) == Match(s[1..], p[1..])
  {
  }

  lemma {:induction false} RunFrom(s: Bytes)
    ensures forall c :: c in s[..NumberRun(s)] ==> c in NUMERIC
    ensures s[NumberRun(s)..] != [] ==> s[NumberRun(s)] !in NUMERIC
  {
    if s != [] && NumberByte(s[0]) {
      RunFrom(s[1..]);
      var n := NumberRun(s[1..]);
      assert s[..n + 1] == [s[0]] + s[1..][..n];
    }
  }

  lemma ParseSkipped(s: Bytes, strtod: Bytes -> bool)
    requires Parse(s, strtod).Ok?
    ensures var t := SkipSpace(s);
      t != [] && |t| <= |s| && SkipSpace(t) == t && Parse(t, strtod) == Parse(s, strtod)
  {
    hide StringBody, Match, Items, Members, Number, IsSpace;
    SkippedOnce(s);
  }

  lemma WordFrom(space: Bytes, t: Bytes, strtod: Bytes -> bool) returns (f: Form)
    requires Parse(t, strtod).Ok? && Blank(space) && SkipSpace(t) == t != [] && t[0] != '[' && t[0] != '{'
    ensures var r := Parse(t, strtod);
      && f.space == space && Good(f, strtod) && Ends(f, r.rest) && t == Body(f) + r.rest
      && r.val == FormValue(f, strtod)
  {
    hide *;
    if t[0] == '"' {
      f := QuotedFrom(space, t, strtod);
    } else if '0' <= t[0] <= '9' || t[0] == '-' {
      f := NumeralFrom(space, t, strtod);
    } else {
      f := PlainFrom(space, t, strtod);
    }
  }

  lemma QuotedFrom(space: Bytes, t: Bytes, strtod: Bytes -> bool) returns (f: Form)
    requires Parse(t, strtod).Ok? && Blank(space) && SkipSpace(t) == t != [] && t[0] == '"'
    ensures var r := Parse(t, strtod);
      && f.space == space && Good(f, strtod) && Ends(f, r.rest) && t == Body(f) + r.rest
      && r.val == FormValue(f, strtod)
  {
    hide StringBody, Match, Items, Members, Number, Expect, PiecesText, PiecesBytes, AllAllowed, Blank;
    var rest := StringBody(t[1..], []).rest;
    var ps := StringFrom(t[1..], []);
    f := Quoted(space, ps);
    assert Body(f) == StringText(ps);
    assert t == ['"'] + t[1..];
    assert StringText(ps) + rest == "\"" + (PiecesText(ps) + "\"" + rest);
    assert [] + PiecesBytes(ps) == PiecesBytes(ps);
  }

  lemma NumeralFrom(space: Bytes, t: Bytes, strtod: Bytes -> bool) returns (f: Form)
    requires Parse(t, strtod).Ok? && Blank(space) && SkipSpace(t) == t != [] && ('0' <= t[0] <= '9' || t[0] == '-')
    ensures var r := Parse(t, strtod);
      && f.space == space && Good(f, strtod) && Ends(f, r.rest) && t == Body(f) + r.rest
      && r.val == FormValue(f, strtod)
  {
    hide StringBody, Match, Items, Members, Expect, Blank, NumberRun, Number, SkipSpace;
    assert Parse(t, strtod) == Number(t, strtod);
    var l, rest := NumberFrom(t, strtod);
    f := Numeral(space, l);
    assert Body(f) == l;
  }

  lemma NumberFrom(t: Bytes, strtod: Bytes -> bool) returns (l: Bytes, rest: Bytes)
    requires Number(t, strtod).Ok? && t != [] && ('0' <= t[0] <= '9' || t[0] == '-')
    ensures Number(t, strtod) == Ok(Num(l), rest) && t == l + rest && l != [] && strtod(l)
    ensures l[0] in "0123456789-" && (forall c :: c in l ==> c in NUMERIC) && (rest != [] ==> rest[0] !in NUMERIC)
  {
    RunFrom(t);
    var n := NumberRun(t);
    hide NumberRun;
    l, rest := t[..n], t[n..];
    assert t == l + rest;
    SomeRun(t);
    Digits(t[0]);
  }

  lemma SomeRun(t: Bytes)
    requires t != [] && ('0' <= t[0] <= '9' || t[0] == '-')
    ensures 0 < NumberRun(t)
  {
  }

  lemma Digits(c: Byte)
    requires '0' <= c <= '9' || c == '-'
    ensures c in "0123456789-"
  {
    var s := "0123456789-";
    assert if c == '-' then s[10] == c else s[c as int - '0' as int] == c;
  }

  lemma PlainFrom(space: Bytes, t: Bytes, strtod: Bytes -> bool) returns (f: Form)
    requires Parse(t, strtod).Ok? && Blank(space) && SkipSpace(t) == t != [] && t[0] != '[' && t[0] != '{'
    requires t[0] != '"' && !('0' <= t[0] <= '9' || t[0] == '-')
    ensures var r := Parse(t, strtod);
      && f.space == space && Good(f, strtod) && Ends(f, r.rest) && t == Body(f) + r.rest
      && r.val == FormValue(f, strtod)
  {
    hide StringBody, Match, Items, Members, Number, Expect, Blank, SkipSpace;
    var r := Parse(t, strtod);
    f := Word(space, r.val);
    assert t == [t[0]] + t[1..];
    if t[0] == 'n' {
      MatchFrom(t[1..], "ull");
      assert Body(f) == "n" + "ull";
    } else if t[0] == 'f' {
      MatchFrom(t[1..], "alse");
      assert Body(f) == "f" + "alse";
    } else {
      MatchFrom(t[1..], "rue");
      assert Body(f) == "t" + "rue";
    }
  }

  lemma {:induction false} ArrayFrom(t: Bytes, strtod: Bytes -> bool) returns (inner: Bytes, items: seq<Item>)
    requires Parse(t, strtod).Ok? && SkipSpace(t) == t != [] && t[0] == '['
    ensures Blank(inner) && GoodItems(items, strtod)
    ensures t == "[" + (inner + (ItemsText(items) + ("]" + Parse(t, strtod).rest)))
    ensures Parse(t, strtod).val == Arr(ItemValues(items, strtod))
    decreases |t|, 1
  {
    hide StringBody, Match, Items, Members, Number, Expect, Blank, SkipSpace, ItemsText, Good;
    var e := Expect(t[1..], ']');
    inner := ExpectFrom(t[1..], ']');
    assert t == [t[0]] + t[1..];
    if e.Ok? {
      items := [];
      NoItems();
    } else {
      items := ItemsFrom(e.rest, [], strtod);
      assert [] + ItemValues(items, strtod) == ItemValues(items, strtod);
    }
  }

  lemma NoItems()
    ensures ItemsText([]) == [] && EntriesText([]) == []
  {
  }

  lemma {:induction false} ItemsFrom(s: Bytes, acc: seq<Value>, strtod: Bytes -> bool) returns (items: seq<Item>)
    requires Items(s, acc, strtod).Ok?
    ensures items != [] && GoodItems(items, strtod)
    ensures s == ItemsText(items) + ("]" + Items(s, acc, strtod).rest)
    ensures Items(s, acc, strtod).val == Arr(acc + ItemValues(items, strtod))
    decreases |s|, 3
  {
    hide Parse, Expect, Blank, ItemsText, Good, GoodItems, FormText, FormValue, ItemValues, Ends;
    var f := FormFrom(s, strtod);
    var v := Parse(s, strtod);
    var after := ExpectFrom(v.rest, ',');
    var e := Expect(v.rest, ',');
    if e.Ok? {
      var more := ItemsFrom(e.rest, acc + [v.val], strtod);
      items := [Item(f, after)] + more;
      assert items[1..] == more;
      GoodItemsMore(items, strtod);
      ItemsTextIs(items);
      ItemValuesIs(items, acc, strtod);
    } else {
      var after2 := ExpectFrom(e.rest, ']');
      BlankBoth(after, after2);
      items := [Item(f, after + after2)];
      GoodItemsMore(items, strtod);
      ItemsTextIs(items);
      ItemValuesIs(items, acc, strtod);
    }
  }

  lemma GoodItemsMore(items: seq<Item>, strtod: Bytes -> bool)
    requires items != [] && Good(items[0].val, strtod) && Blank(items[0].after)
    requires |items| > 1 ==> GoodItems(items[1..], strtod)
    ensures GoodItems(items, strtod)
  {
    hide Good, Blank;
    forall i | 0 < i < |items| ensures Good(items[i].val, strtod) && Blank(items[i].after) {
      assert items[i] == items[1..][i - 1];
    }
  }

  lemma ItemsTextIs(items: seq<Item>)
    requires items != []
    ensures ItemsText(items) ==
      FormText(items[0].val) + items[0].after + if |items| == 1 then [] else "," + ItemsText(items[1..])
  {
  }

  lemma BlankBoth(a: Bytes, b: Bytes)
    requires Blank(a) && Blank(b)
    ensures Blank(a + b)
  {
  }

  lemma ArrayIs(f: Form, strtod: Bytes -> bool)
    requires f.Array? && Blank(f.space) && Blank(f.inner) && GoodItems(f.items, strtod)
    ensures Good(f, strtod) && (forall post :: Ends(f, post))
    ensures FormValue(f, strtod) == Arr(ItemValues(f.items, strtod))
    ensures FormText(f) == f.space + Body(f)
    ensures forall post :: Body(f) + post == "[" + (f.inner + (ItemsText(f.items) + ("]" + post)))
  {
    hide Blank, ItemsText, ItemValues;
    assert Body(f) == "[" + f.inner + ItemsText(f.items) + "]";
  }

  lemma ObjectIs(f: Form, strtod: Bytes -> bool)
    requires f.Object? && Blank(f.space) && Blank(f.inner) && GoodEntries(f.entries, strtod)
    ensures Good(f, strtod) && (forall post :: Ends(f, post))
    ensures FormValue(f, strtod) == Obj(Stored([], f.entries, strtod))
    ensures FormText(f) == f.space + Body(f)
    ensures forall post :: Body(f) + post == "{" + (f.inner + (EntriesText(f.entries) + ("}" + post)))
  {
    hide Blank, EntriesText, Stored, GoodEntry;
    assert Body(f) == "{" + f.inner + EntriesText(f.entries) + "}";
  }

  lemma {:induction false} ObjectFrom(t: Bytes, strtod: Bytes -> bool) returns (inner: Bytes, entries: seq<Entry>)
    requires Parse(t, strtod).Ok? && SkipSpace(t) == t != [] && t[0] == '{'
    ensures Blank(inner) && GoodEntries(entries, strtod)
    ensures t == "{" + (inner + (EntriesText(entries) + ("}" + Parse(t, strtod).rest)))
    ensures Parse(t, strtod).val == Obj(Stored([], entries, strtod))
    decreases |t|, 1
  {
    hide StringBody, Match, Items, Members, Number, Expect, Blank, SkipSpace, EntriesText, GoodEntry;
    var e := Expect(t[1..], '}');
    inner := ExpectFrom(t[1..], '}');
    assert t == [t[0]] + t[1..];
    if e.Ok? {
      entries := [];
      NoItems();
    } else {
      entries := EntriesFrom(e.rest, [], strtod);
    }
  }

  lemma {:induction false} EntriesFrom(s: Bytes, acc: seq<Member>, strtod: Bytes -> bool) returns (entries: seq<Entry>)
    requires Members(s, acc, strtod).Ok?
    ensures entries != [] && GoodEntries(entries, strtod)
    ensures s == EntriesText(entries) + ("}" + Members(s, acc, strtod).rest)
    ensures Members(s, acc, strtod).val == Obj(Stored(acc, entries, strtod))
    decreases |s|, 4
  {
    hide ParseMember, Expect, Blank, EntriesText, GoodEntry, EntryText, EntryMember, Put;
    var m := ParseMember(s, strtod);
    var bare := EntryFrom(s, strtod);
    var after := ExpectFrom(m.rest, ',');
    var e := Expect(m.rest, ',');
    if e.Ok? {
      var first := WithAfter(bare, after, strtod);
      var more := EntriesFrom(e.rest, Put(acc, m.val), strtod);
      entries := [first] + more;
      assert entries[1..] == more;
      EntriesTextIs(entries);
    } else {
      var after2 := ExpectFrom(e.rest, '}');
      BlankBoth(after, after2);
      var first := WithAfter(bare, after + after2, strtod);
      entries := [first];
      EntriesTextIs(entries);
      assert Stored(Put(acc, m.val), entries[1..], strtod) == Put(acc, m.val);
    }
  }

  lemma EntriesTextIs(entries: seq<Entry>)
    requires entries != []
    ensures EntriesText(entries) ==
      EntryText(entries[0]) + if |entries| == 1 then [] else "," + EntriesText(entries[1..])
  {
  }

  /** White space put behind an entry. */
  lemma WithAfter(e: Entry, after: Bytes, strtod: Bytes -> bool) returns (d: Entry)
    requires GoodEntry(e, strtod) && e.after == [] && Blank(after)
    ensures GoodEntry(d, strtod) && EntryText(d) == EntryText(e) + after
    ensures EntryMember(d, strtod) == EntryMember(e, strtod)
  {
    d := e.(after := after);
    hide Good, FormText, FormValue, AllAllowed, PiecesText, PiecesBytes, Blank;
  }

  lemma {:induction false} EntryFrom(s: Bytes, strtod: Bytes -> bool) returns (e: Entry)
    requires ParseMember(s, strtod).Ok?
    ensures var r := ParseMember(s, strtod);
      && GoodEntry(e, strtod) && e.after == [] && s == EntryText(e) + r.rest && r.val == EntryMember(e, strtod)
    decreases |s|, 3
  {
    hide Parse, Expect, Blank, StringBody, Good, FormText, FormValue, AllAllowed, PiecesText, PiecesBytes;
    var q := Expect(s, '"');
    var space := ExpectFrom(s, '"');
    var k := StringBody(q.rest, []);
    var key := StringFrom(q.rest, []);
    var c := Expect(k.rest, ':');
    var colon := ExpectFrom(k.rest, ':');
    var v := Parse(c.rest, strtod);
    var f := FormFrom(c.rest, strtod);
    NoSpace();
    e := Entry(space, key, colon, f, []);
    assert [] + PiecesBytes(key) == PiecesBytes(key);
    assert s == space + ("\"" + (PiecesText(key) + "\"" + (colon + (":" + (FormText(f) + v.rest)))));
    assert s == EntryText(e) + v.rest;
  }

  /** Every value that the parser takes is written as a form. */
  lemma {:induction false} FormFrom(s: Bytes, strtod: Bytes -> bool) returns (f: Form)
    requires Parse(s, strtod).Ok?
    ensures var r := Parse(s, strtod);
      Good(f, strtod) && Ends(f, r.rest) && s == FormText(f) + r.rest && r.val == FormValue(f, strtod)
    decreases |s|, 2
  {
    hide *;
    var space := SpaceFrom(s);
    var t := SkipSpace(s);
    ParseSkipped(s, strtod);
    if t[0] == '[' {
      var inner, items := ArrayFrom(t, strtod);
      f := Array(space, inner, items);
      ArrayIs(f, strtod);
    } else if t[0] == '{' {
      var inner, entries := ObjectFrom(t, strtod);
      f := Object(space, inner, entries);
      ObjectIs(f, strtod);
    } else {
      f := WordFrom(space, t, strtod);
    }
    SpaceInFront(f, Parse(s, strtod).rest);
  }

  /** The parser takes just the forms, each as its value, and leaves what follows. */
  lemma ParseIff(s: Bytes, v: Value, rest: Bytes, strtod: Bytes -> bool)
    ensures Parse(s, strtod) == Ok(v, rest)
       <==> exists f :: Good(f, strtod) && Ends(f, rest) && s == FormText(f) + rest && v == FormValue(f, strtod)
  {
    hide *;
    if Parse(s, strtod) == Ok(v, rest) {
      var f := FormFrom(s, strtod);
    }
    if f :| Good(f, strtod) && Ends(f, rest) && s == FormText(f) + rest && v == FormValue(f, strtod) {
      FormRead(f, rest, strtod);
    }
  }

  // What an object holds.

  /** Of the members listed, m is the last one of its key. */
  ghost predicate LastOfKey(list: seq<Member>, m: Member) {
    exists i :: 0 <= i < |list| && list[i] == m && forall j :: i < j < |list| ==> list[j].key != m.key
  }

  function StoreAll(list: seq<Member>): seq<Member> {
    if list == [] then [] else Put(StoreAll(list[..|list| - 1]), list[|list| - 1])
  }

  lemma LastOfMore(list: seq<Member>, x: Member, m: Member)
    ensures LastOfKey(list + [x], m) <==> m == x || (m.key != x.key && LastOfKey(list, m))
  {
    var all := list + [x];
    assert all[|list|] == x;
    if LastOfKey(all, m) && m != x {
      var i :| 0 <= i < |all| && all[i] == m && forall j :: i < j < |all| ==> all[j].key != m.key;
      assert list[i] == m && forall j :: i < j < |list| ==> list[j] == all[j];
    }
    if m.key != x.key && LastOfKey(list, m) {
      var i :| 0 <= i < |list| && list[i] == m && forall j :: i < j < |list| ==> list[j].key != m.key;
      assert all[i] == m && forall j :: i < j < |list| ==> list[j] == all[j];
    }
  }

  predicate AllOrdered(list: seq<Member>) { forall i :: 0 <= i < |list| ==> Ordered(list[i].val) }

  /** Keys in order are distinct. */
  lemma KeyOnce(ms: seq<Member>, m: Member, x: Member)
    requires KeysAscend(ms) && m in ms && x in ms && m.key == x.key
    ensures m == x
  {
    hide Less;
    var i :| 0 <= i < |ms| && ms[i] == m;
    var j :| 0 <= j < |ms| && ms[j] == x;
    if i != j {
      var a, b := if i < j then i else j, if i < j then j else i;
      var t := ms[a..];
      forall k | 0 < k < |t| ensures Less(t[k - 1].key, t[k].key) {
        assert t[k - 1] == ms[a + k - 1] && t[k] == ms[a + k];
      }
      AscendingBelow(t, b - a);
      LessIrreflexive(m.key);
    }
  }

  /** Storing one member after the other leaves the last one of each key, in the order of the keys. */
  lemma {:induction false} StoreAllHolds(list: seq<Member>)
    requires AllOrdered(list)
    ensures OrderedMembers(StoreAll(list))
    ensures forall m :: m in StoreAll(list) <==> LastOfKey(list, m)
  {
    hide LastOfKey, Put, Ordered, KeysAscend;
    if list == [] {
      NoLast();
    } else {
      var init, x := list[..|list| - 1], list[|list| - 1];
      assert list == init + [x];
      StoreAllHolds(init);
      PutStores(StoreAll(init), x);
      forall m ensures m in StoreAll(list) <==> LastOfKey(list, m) {
        LastOfMore(init, x, m);
        if m in StoreAll(list) && m.key == x.key { KeyOnce(StoreAll(list), m, x); }
      }
    }
  }

  lemma NoLast()
    ensures OrderedMembers([]) && forall m :: !LastOfKey([], m)
  {
  }

  function EntryMembers(entries: seq<Entry>, strtod: Bytes -> bool): (ms: seq<Member>)
    requires GoodEntries(entries, strtod)
    ensures |ms| == |entries| && forall i :: 0 <= i < |entries| ==> ms[i] == EntryMember(entries[i], strtod)
  {
    seq(|entries|, i requires 0 <= i < |entries| => EntryMember(entries[i], strtod))
  }

  lemma {:induction false} StoredMore(ms: seq<Member>, entries: seq<Entry>, e: Entry, strtod: Bytes -> bool)
    requires GoodEntries(entries, strtod) && GoodEntry(e, strtod)
    ensures GoodEntries(entries + [e], strtod)
    ensures Stored(ms, entries + [e], strtod) == Put(Stored(ms, entries, strtod), EntryMember(e, strtod))
    decreases |entries|
  {
    hide GoodEntry, EntryMember, Put;
    var all := entries + [e];
    if entries == [] {
      assert all[1..] == [];
      assert Stored(Put(ms, EntryMember(e, strtod)), all[1..], strtod) == Put(ms, EntryMember(e, strtod));
    } else {
      assert all[1..] == entries[1..] + [e];
      StoredMore(Put(ms, EntryMember(entries[0], strtod)), entries[1..], e, strtod);
    }
  }

  lemma {:induction false} StoredIsStoreAll(entries: seq<Entry>, strtod: Bytes -> bool)
    requires GoodEntries(entries, strtod)
    ensures Stored([], entries, strtod) == StoreAll(EntryMembers(entries, strtod))
    decreases |entries|
  {
    hide GoodEntry, EntryMember, Put;
    if entries != [] {
      var n := |entries| - 1;
      assert entries == entries[..n] + [entries[n]];
      StoredIsStoreAll(entries[..n], strtod);
      StoredMore([], entries[..n], entries[n], strtod);
      assert EntryMembers(entries, strtod)[..n] == EntryMembers(entries[..n], strtod);
    }
  }

  lemma FormOrdered(f: Form, strtod: Bytes -> bool)
    requires Good(f, strtod)
    ensures Ordered(FormValue(f, strtod))
  {
    hide *;
    NothingFollows(f);
    FormRead(f, [], strtod);
    ParseOrdered(FormText(f) + [], strtod);
  }

  lemma NothingFollows(f: Form)
    ensures Ends(f, [])
  {
  }

  /** An object's members are in the order of their keys, and are those of the last entry for each key. */
  lemma ObjectHolds(entries: seq<Entry>, strtod: Bytes -> bool)
    requires GoodEntries(entries, strtod)
    ensures KeysAscend(Stored([], entries, strtod))
    ensures forall m :: m in Stored([], entries, strtod) <==> LastOfKey(EntryMembers(entries, strtod), m)
  {
    hide LastOfKey, StoreAll, Stored, KeysAscend, Good, FormValue, Ordered, PiecesBytes, AllAllowed;
    var list := EntryMembers(entries, strtod);
    forall i | 0 <= i < |list| ensures Ordered(list[i].val) {
      assert GoodEntry(entries[i], strtod);
      FormOrdered(entries[i].val, strtod);
    }
    StoreAllHolds(list);
    StoredIsStoreAll(entries, strtod);
  }

  // White space.

  /** The form without white space between its tokens. */
  function Strip(f: Form): Form
    decreases f, 1
  {
    match f
    case Word(_, v) => Word([], v)
    case Numeral(_, l) => Numeral([], l)
    case Quoted(_, ps) => Quoted([], ps)
    case Array(_, _, items) => Array([], [], StripItems(items))
    case Object(_, _, entries) => Object([], [], StripEntries(entries))
  }

  function StripItems(items: seq<Item>): seq<Item>
    decreases items, 0
  {
    if items == [] then [] else [Item(Strip(items[0].val), [])] + StripItems(items[1..])
  }

  function StripEntries(entries: seq<Entry>): seq<Entry>
    decreases entries, 0
  {
    if entries == [] then [] else
      [Entry([], entries[0].key, [], Strip(entries[0].val), [])] + StripEntries(entries[1..])
  }

  lemma {:induction false} StripKeeps(f: Form, strtod: Bytes -> bool)
    requires Good(f, strtod)
    ensures Good(Strip(f), strtod) && FormValue(Strip(f), strtod) == FormValue(f, strtod)
    decreases f, 1
  {
    hide AllAllowed, PiecesBytes;
    match f
    case Array(_, _, items) => StripKeepsItems(items, strtod);
    case Object(_, _, entries) => StripKeepsEntries([], entries, strtod);
    case _ =>
  }

  lemma {:induction false} StripKeepsItems(items: seq<Item>, strtod: Bytes -> bool)
    requires GoodItems(items, strtod)
    ensures GoodItems(StripItems(items), strtod)
    ensures ItemValues(StripItems(items), strtod) == ItemValues(items, strtod)
    decreases items, 0
  {
    hide Good, FormValue;
    if items != [] {
      StripKeeps(items[0].val, strtod);
      StripKeepsItems(items[1..], strtod);
      NoSpace();
      assert StripItems(items)[1..] == StripItems(items[1..]);
      GoodItemsMore(StripItems(items), strtod);
    }
  }

  lemma {:induction false} StripKeepsEntries(ms: seq<Member>, entries: seq<Entry>, strtod: Bytes -> bool)
    requires GoodEntries(entries, strtod)
    ensures GoodEntries(StripEntries(entries), strtod)
    ensures Stored(ms, StripEntries(entries), strtod) == Stored(ms, entries, strtod)
    decreases entries, 0
  {
    hide Good, FormValue, Put, AllAllowed, PiecesBytes;
    if entries != [] {
      var e := entries[0];
      assert GoodEntry(e, strtod);
      StripKeeps(e.val, strtod);
      var d := Entry([], e.key, [], Strip(e.val), []);
      assert GoodEntry(d, strtod) && EntryMember(d, strtod) == EntryMember(e, strtod);
      StripKeepsEntries(Put(ms, EntryMember(e, strtod)), entries[1..], strtod);
      assert StripEntries(entries)[1..] == StripEntries(entries[1..]);
      forall i | 0 <= i < |StripEntries(entries)| ensures GoodEntry(StripEntries(entries)[i], strtod) {
        if 0 < i { assert StripEntries(entries)[i] == StripEntries(entries[1..])[i - 1]; }
      }
    }
  }

  // What the serializer writes, as a form.

  /** How the serializer writes a byte. */
  function PieceOf(c: Byte): Piece {
    if c as int in {8, 9, 10, 12, 13} || c in "\"\\/" then
      Short(if c as int == 8 then 'b' else if c as int == 9 then 't' else if c as int == 10 then 'n'
            else if c as int == 12 then 'f' else if c as int == 13 then 'r' else c)
    else if (c as int) < 0x20 || c as int == 0x7f then Unit(c as int, [false, false, false, false])
    else Raw(c)
  }

  lemma PieceOfByte(c: Byte)
    ensures Allowed(PieceOf(c)) && PieceText(PieceOf(c)) == Escape(c)
  {
    hide Four, HexDigit;
    if PieceOf(c).Unit? { UnitOfByte(c); }
  }

  lemma UnitOfByte(c: Byte)
    ensures "\\u" + Four(c as int, [false, false, false, false])
         == "\\u00" + [HexDigit(c as int / 16), HexDigit(c as int % 16)]
  {
    var n := c as int;
    assert n / 4096 == 0 && n / 256 % 16 == 0 && n / 16 % 16 == n / 16;
    SmallDigit(n / 16);
    SmallDigit(n % 16);
  }

  lemma SmallDigit(n: int)
    requires 0 <= n < 16
    ensures Digit(n, false) == HexDigit(n)
  {
  }

  function PiecesOf(s: Bytes): seq<Piece> { if s == [] then [] else [PieceOf(s[0])] + PiecesOf(s[1..]) }

  lemma {:induction false} PiecesOfString(s: Bytes)
    ensures AllAllowed(PiecesOf(s)) && PiecesText(PiecesOf(s)) == Escaped(s)
  {
    hide PieceOf, PieceText, Escape, Allowed;
    if s != [] {
      PieceOfByte(s[0]);
      PiecesOfString(s[1..]);
      assert PiecesOf(s)[1..] == PiecesOf(s[1..]);
    }
  }

  /** The form of a value without numbers as the serializer writes it. */
  function FormOf(v: Value): Form
    requires Plain(v)
    decreases v, 1
  {
    match v
    case Str(s) => Quoted([], PiecesOf(s))
    case Arr(items) => Array([], [], ItemsOf(items))
    case Obj(members) => Object([], [], EntriesOf(members))
    case _ => Word([], v)
  }

  function ItemsOf(items: seq<Value>): seq<Item>
    requires forall i :: 0 <= i < |items| ==> Plain(items[i])
    decreases items, 0
  {
    if items == [] then [] else [Item(FormOf(items[0]), [])] + ItemsOf(items[1..])
  }

  function EntriesOf(members: seq<Member>): seq<Entry>
    requires forall i :: 0 <= i < |members| ==> Plain(members[i].val)
    decreases members, 0
  {
    if members == [] then [] else
      [Entry([], PiecesOf(members[0].key), [], FormOf(members[0].val), [])] + EntriesOf(members[1..])
  }

  lemma {:induction false} FormOfText(v: Value, strtod: Bytes -> bool)
    requires Plain(v)
    ensures Good(FormOf(v), strtod) && FormText(FormOf(v)) == Write(v)
    decreases v, 1
  {
    hide PiecesOf, PiecesText, AllAllowed, Escaped, ItemsText, EntriesText, WriteItems, WriteMembers, Blank, ItemsOf,
         EntriesOf, GoodEntry;
    NoSpace();
    match v
    case Str(s) => PiecesOfString(s);
    case Arr(items) => ItemsOfText(items, strtod);
    case Obj(members) => EntriesOfText(members, strtod);
    case _ =>
  }

  lemma {:induction false} ItemsOfText(items: seq<Value>, strtod: Bytes -> bool)
    requires forall i :: 0 <= i < |items| ==> Plain(items[i])
    ensures |ItemsOf(items)| == |items| && GoodItems(ItemsOf(items), strtod)
    ensures ItemsText(ItemsOf(items)) == WriteItems(items)
    decreases items, 0
  {
    hide Good, FormText, Write, FormOf, Plain;
    if items != [] {
      FormOfText(items[0], strtod);
      ItemsOfText(items[1..], strtod);
      NoSpace();
      assert ItemsOf(items)[1..] == ItemsOf(items[1..]);
      GoodItemsMore(ItemsOf(items), strtod);
    }
  }

  lemma {:induction false} EntriesOfText(members: seq<Member>, strtod: Bytes -> bool)
    requires forall i :: 0 <= i < |members| ==> Plain(members[i].val)
    ensures |EntriesOf(members)| == |members| && GoodEntries(EntriesOf(members), strtod)
    ensures EntriesText(EntriesOf(members)) == WriteMembers(members)
    decreases members, 0
  {
    hide Good, FormText, Write, FormOf, Plain, PiecesOf, PiecesText, Escaped, AllAllowed;
    if members != [] {
      var m, es := members[0], EntriesOf(members);
      PiecesOfString(m.key);
      FormOfText(m.val, strtod);
      EntriesOfText(members[1..], strtod);
      NoSpace();
      assert es[1..] == EntriesOf(members[1..]);
      assert EntryText(es[0]) == WriteMember(m);
      forall i | 0 <= i < |es| ensures GoodEntry(es[i], strtod) {
        if 0 < i { assert es[i] == es[1..][i - 1]; }
      }
    }
  }

  /** White space put between the tokens of a printed value changes neither the value nor what is left. */
  lemma SpacedOut(v: Value, f: Form, post: Bytes, strtod: Bytes -> bool)
    requires Plain(v) && Good(f, strtod) && Strip(f) == FormOf(v)
    ensures FormText(Strip(f)) == Write(v) && Parse(FormText(f) + post, strtod) == Ok(v, post)
  {
    hide *;
    FormOfText(v, strtod);
    StripKeeps(f, strtod);
    NoNumber(v, post);
    SameKind(f, post);
    FormRead(f, post, strtod);
    FormRead(FormOf(v), post, strtod);
    RoundTrip(v, post, strtod);
  }

  lemma NoNumber(v: Value, post: Bytes)
    requires Plain(v)
    ensures Ends(FormOf(v), post)
  {
  }

  lemma SameKind(f: Form, post: Bytes)
    ensures Ends(Strip(f), post) ==> Ends(f, post)
  {
  }
}
