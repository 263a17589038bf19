/**
 * DOMTokenList over an element attribute: the live tokens, the attribute they are written back
 * to, and the list a fresh reader would build from that attribute.
 */
module TokenList {
  import opened Sequences

  predicate IsSpace(c: char) { c == '\t' || c == '\n' || c as int == 12 || c == '\r' || c == ' ' }

  predicate SpaceFree(s: string) { forall i :: 0 <= i < |s| ==> !IsSpace(s[i]) }

  // Splitting and joining.

  /** boost::split on white space without compression: every separator cuts. */
  function Split(s: string): (ts: seq<string>)
    ensures |ts| > 0 && forall t :: t in ts ==> SpaceFree(t)
  {
    if s == "" then [""]
    else if IsSpace(s[0]) then [""] + Split(s[1..])
    else
      var r := Split(s[1..]);
      assert r[0] in r;
      assert SpaceFree([s[0]] + r[0]);
      assert forall t :: t in r[1..] ==> t in r;
      [[s[0]] + r[0]] + r[1..]
  }

  function Join(ts: seq<string>): string {
    if ts == [] then "" else if |ts| == 1 then ts[0] else ts[0] + " " + Join(ts[1..])
  }

  ghost function NonEmpty(ts: seq<string>): seq<string> {
    if ts == [] then [] else (if ts[0] == "" then [] else [ts[0]]) + NonEmpty(ts[1..])
  }

  /** The tokens a fresh list over this text shows, empty ones aside. */
  ghost function Words(s: string): seq<string> { NonEmpty(Split(s)) }

  lemma {:induction false} NonEmptyConcat(a: seq<string>, b: seq<string>)
    ensures NonEmpty(a + b) == NonEmpty(a) + NonEmpty(b)
  {
    if a == [] { assert a + b == b; } else {
      assert (a + b)[0] == a[0] && (a + b)[1..] == a[1..] + b;
      NonEmptyConcat(a[1..], b);
    }
  }

  lemma {:induction false} NonEmptyMembers(ts: seq<string>)
    ensures forall t :: t in NonEmpty(ts) <==> t in ts && t != ""
  {
    if ts != [] {
      NonEmptyMembers(ts[1..]);
      assert ts == [ts[0]] + ts[1..];
    }
  }

  lemma {:induction false} SplitSpaceFree(s: string)
    requires SpaceFree(s)
    ensures Split(s) == [s]
  {
    if s != "" {
      assert SpaceFree(s[1..]);
      SplitSpaceFree(s[1..]);
      assert s == [s[0]] + s[1..];
    }
  }

  lemma SplitFirst(c: char, s: string)
    ensures Split("") == [""]
    ensures Split([c] + s) == if IsSpace(c) then [""] + Split(s) else [[c] + Split(s)[0]] + Split(s)[1..]
  {
    assert ([c] + s)[1..] == s;
  }

  lemma FrontApart<T>(x: T, r: seq<T>, q: seq<T>)
    requires r != []
    ensures (r + q)[0] == r[0] && [x] + (r + q)[1..] == [x] + r[1..] + q
  {
  }

  lemma {:induction false} SplitAtSpace(a: string, b: string)
    ensures Split(a + " " + b) == Split(a) + Split(b)
  {
    hide Split;
    if a == "" {
      assert a + " " + b == [' '] + b;
      SplitFirst(' ', b);
    } else {
      var c, rest := a[0], a[1..];
      assert a == [c] + rest && a + " " + b == [c] + (rest + " " + b);
      SplitAtSpace(rest, b);
      SplitFirst(c, rest + " " + b);
      SplitFirst(c, rest);
      var r, q := Split(rest), Split(b);
      if IsSpace(c) {
        assert [""] + (r + q) == [""] + r + q;
      } else {
        FrontApart([c] + r[0], r, q);
      }
    }
  }

  lemma {:induction false} JoinSplits(ts: seq<string>)
    requires forall t :: t in ts ==> SpaceFree(t)
    ensures Words(Join(ts)) == NonEmpty(ts)
  {
    if ts == [] {
    } else if |ts| == 1 {
      SplitSpaceFree(ts[0]);
      assert ts == [ts[0]];
    } else {
      SplitSpaceFree(ts[0]);
      SplitAtSpace(ts[0], Join(ts[1..]));
      JoinSplits(ts[1..]);
      NonEmptyConcat([ts[0]], Split(Join(ts[1..])));
      NonEmptyConcat([ts[0]], ts[1..]);
      assert ts == [ts[0]] + ts[1..];
    }
  }

  /** Writing the tokens out and splitting them again gives them back exactly when none holds white space. */
  lemma RoundTrip(ts: seq<string>)
    ensures Words(Join(ts)) == NonEmpty(ts) <==> forall t :: t in ts ==> SpaceFree(t)
  {
    if forall t :: t in ts ==> SpaceFree(t) {
      JoinSplits(ts);
    } else {
      var t :| t in ts && !SpaceFree(t);
      NonEmptyMembers(ts);
      NonEmptyMembers(Split(Join(ts)));
      assert t in NonEmpty(ts) && t !in Words(Join(ts));
    }
  }

  // Stripping.

  function Strip(s: string): string
    decreases |s|
  {
    if s != "" && IsSpace(s[0]) then Strip(s[1..])
    else if s != "" && IsSpace(s[|s| - 1]) then Strip(s[..|s| - 1])
    else s
  }

  ghost predicate AllSpace(s: string) { forall i :: 0 <= i < |s| ==> IsSpace(s[i]) }

  lemma MoreInFront(x: string, lead: string, rest: string, trail: string)
    ensures x + (lead + rest + trail) == (x + lead) + rest + trail
    ensures AllSpace(x) && AllSpace(lead) ==> AllSpace(x + lead)
  {
  }

  lemma MoreBehind(lead: string, rest: string, trail: string, x: string)
    ensures (lead + rest + trail) + x == lead + rest + (trail + x)
    ensures AllSpace(trail) && AllSpace(x) ==> AllSpace(trail + x)
  {
  }

  /** Strip takes off white space only, and all of it at both ends. */
  lemma {:induction false} StripMeaning(s: string) returns (lead: string, trail: string)
    ensures s == lead + Strip(s) + trail && AllSpace(lead) && AllSpace(trail)
    ensures Strip(s) != "" ==> !IsSpace(Strip(s)[0]) && !IsSpace(Strip(s)[|Strip(s)| - 1])
    decreases |s|
  {
    if s != "" && IsSpace(s[0]) {
      lead, trail := StripMeaning(s[1..]);
      MoreInFront([s[0]], lead, Strip(s[1..]), trail);
      lead := [s[0]] + lead;
    } else if s != "" && IsSpace(s[|s| - 1]) {
      lead, trail := StripMeaning(s[..|s| - 1]);
      MoreBehind(lead, Strip(s[..|s| - 1]), trail, [s[|s| - 1]]);
      trail := trail + [s[|s| - 1]];
    } else {
      lead, trail := "", "";
    }
  }

  lemma {:induction false} StripLead(s: string, pos: nat)
    requires pos <= |s| && AllSpace(s[..pos])
    ensures Strip(s) == Strip(s[pos..])
    decreases pos
  {
    if pos > 0 {
      assert s[0] == s[..pos][0];
      assert s[1..][..pos - 1] == s[..pos][1..] && s[1..][pos - 1..] == s[pos..];
      StripLead(s[1..], pos - 1);
    } else {
      assert s[0..] == s;
    }
  }

  lemma {:induction false} StripTrail(s: string, end: nat)
    requires s != "" && !IsSpace(s[0]) && 0 < end <= |s| && AllSpace(s[end..])
    ensures Strip(s) == Strip(s[..end])
    decreases |s| - end
  {
    if end < |s| {
      assert s[|s| - 1] == s[end..][|s| - 1 - end];
      var t := s[..|s| - 1];
      assert t[end..] == s[end..][..|s| - 1 - end] && t[..end] == s[..end];
      StripTrail(t, end);
    } else {
      assert s[..end] == s;
    }
  }

  lemma OneMoreSpace(s: string, pos: nat)
    requires pos < |s| && IsSpace(s[pos])
    ensures AllSpace(s[..pos]) ==> AllSpace(s[..pos + 1])
    ensures AllSpace(s[pos + 1..]) ==> AllSpace(s[pos..])
  {
    assert s[..pos + 1] == s[..pos] + [s[pos]] && s[pos..] == [s[pos]] + s[pos + 1..];
  }

  lemma NoSpaceYet(s: string)
    ensures AllSpace(s[..0]) && AllSpace(s[|s|..]) && s[0..] == s
    ensures s != "" && AllSpace(s[0..]) ==> IsSpace(s[0])
  {
  }

  method StripLeadingAndTrailingWhitespace(text: string) returns (s: string)
    ensures s == Strip(text)
  {
    hide Strip, AllSpace, IsSpace;
    s := text;
    var pos := 0;
    NoSpaceYet(s);
    while pos < |s| && IsSpace(s[pos])
      invariant pos <= |s| && AllSpace(s[..pos])
    {
      OneMoreSpace(s, pos);
      pos := pos + 1;
    }
    StripLead(s, pos);
    if 0 < pos {
      s := s[pos..];
    }
    if 0 < |s| {
      NoSpaceYet(s);
      pos := |s| - 1;
      if IsSpace(s[pos]) {
        OneMoreSpace(s, pos);
        while 0 < pos
          invariant pos < |s| && AllSpace(s[pos..])
        {
          pos := pos - 1;
          if !IsSpace(s[pos]) {
            pos := pos + 1;
            break;
          }
          OneMoreSpace(s, pos);
        }
        NoSpaceYet(s);
        StripTrail(s, pos);
        s := s[..pos];
      }
    }
    StripDone(s);
  }

  lemma StripDone(s: string)
    requires s == "" || (!IsSpace(s[0]) && !IsSpace(s[|s| - 1]))
    ensures Strip(s) == s
  {
  }

  // The operations on the token sequence.

  function RemoveFirst(ts: seq<string>, t: string): seq<string> {
    if ts == [] then [] else if ts[0] == t then ts[1..] else [ts[0]] + RemoveFirst(ts[1..], t)
  }

  function AddOne(ts: seq<string>, arg: string): seq<string> {
    var t := Strip(arg);
    if t == "" || t in ts then ts else ts + [t]
  }

  function RemoveOne(ts: seq<string>, arg: string): seq<string> {
    var t := Strip(arg);
    if t == "" then ts else RemoveFirst(ts, t)
  }

  function AddAll(ts: seq<string>, args: seq<string>): seq<string> {
    if args == [] then ts else AddOne(AddAll(ts, args[..|args| - 1]), args[|args| - 1])
  }

  function RemoveAll(ts: seq<string>, args: seq<string>): seq<string> {
    if args == [] then ts else RemoveOne(RemoveAll(ts, args[..|args| - 1]), args[|args| - 1])
  }

  function ToggleOne(ts: seq<string>, arg: string): seq<string> {
    if Strip(arg) in ts then RemoveOne(ts, arg) else AddOne(ts, arg)
  }

  datatype Op = Add(args: seq<string>) | Remove(args: seq<string>) | Toggle(arg: string) | Force(arg: string, on: bool)

  function Applied(ts: seq<string>, op: Op): seq<string> {
    match op
    case Add(args) => AddAll(ts, args)
    case Remove(args) => RemoveAll(ts, args)
    case Toggle(arg) => ToggleOne(ts, arg)
    case Force(arg, on) => if on then AddOne(ts, arg) else RemoveOne(ts, arg)
  }

  function AppliedAll(ts: seq<string>, ops: seq<Op>): seq<string> {
    if ops == [] then ts else Applied(AppliedAll(ts, ops[..|ops| - 1]), ops[|ops| - 1])
  }

  lemma {:induction false} RemoveFirstCounts(ts: seq<string>, t: string)
    ensures multiset(RemoveFirst(ts, t)) == multiset(ts) - multiset{t}
  {
    if ts != [] {
      assert ts == [ts[0]] + ts[1..];
      if ts[0] != t { RemoveFirstCounts(ts[1..], t); }
    }
  }

  /** No token is held more often than before, unless it is a single new one. */
  ghost predicate NoNewDuplicates(before: seq<string>, after: seq<string>) {
    forall t :: multiset(after)[t] <= 1 || multiset(after)[t] <= multiset(before)[t]
  }

  lemma OneStepNoDup(ts: seq<string>, arg: string)
    ensures NoNewDuplicates(ts, AddOne(ts, arg)) && NoNewDuplicates(ts, RemoveOne(ts, arg))
  {
    RemoveFirstCounts(ts, Strip(arg));
  }

  lemma {:induction false} AddAllNoDup(ts: seq<string>, args: seq<string>)
    ensures NoNewDuplicates(ts, AddAll(ts, args))
  {
    if args != [] {
      AddAllNoDup(ts, args[..|args| - 1]);
      OneStepNoDup(AddAll(ts, args[..|args| - 1]), args[|args| - 1]);
    }
  }

  lemma {:induction false} RemoveAllNoDup(ts: seq<string>, args: seq<string>)
    ensures NoNewDuplicates(ts, RemoveAll(ts, args))
  {
    if args != [] {
      RemoveAllNoDup(ts, args[..|args| - 1]);
      OneStepNoDup(RemoveAll(ts, args[..|args| - 1]), args[|args| - 1]);
    }
  }

  /** No operation introduces a duplicate. */
  lemma AppliedNoDup(ts: seq<string>, op: Op)
    ensures NoNewDuplicates(ts, Applied(ts, op))
  {
    match op
    case Add(args) => AddAllNoDup(ts, args);
    case Remove(args) => RemoveAllNoDup(ts, args);
    case Toggle(arg) => OneStepNoDup(ts, arg);
    case Force(arg, on) => OneStepNoDup(ts, arg);
  }

  /** remove takes out one occurrence: the token is still there exactly when the attribute listed it twice. */
  lemma RemoveLeaves(ts: seq<string>, arg: string)
    requires Strip(arg) != ""
    ensures Strip(arg) in RemoveOne(ts, arg) <==> multiset(ts)[Strip(arg)] >= 2
  {
    var t := Strip(arg);
    RemoveFirstCounts(ts, t);
    assert t in RemoveOne(ts, arg) <==> t in multiset(RemoveOne(ts, arg));
  }

  /** The arguments hold no white space inside. */
  predicate CleanArg(arg: string) { SpaceFree(Strip(arg)) }

  predicate CleanOp(op: Op) {
    match op
    case Add(args) => forall a :: a in args ==> CleanArg(a)
    case Remove(args) => true
    case Toggle(arg) => CleanArg(arg)
    case Force(arg, _) => CleanArg(arg)
  }

  predicate AllSpaceFree(ts: seq<string>) { forall t :: t in ts ==> SpaceFree(t) }

  lemma {:induction false} RemoveFirstMembers(ts: seq<string>, t: string)
    ensures forall x :: x in RemoveFirst(ts, t) ==> x in ts
  {
    if ts != [] && ts[0] != t { RemoveFirstMembers(ts[1..], t); }
  }

  lemma {:induction false} AppliedSpaceFree(ts: seq<string>, op: Op)
    requires AllSpaceFree(ts) && CleanOp(op)
    ensures AllSpaceFree(Applied(ts, op))
    decreases match op case Add(a) => |a| case Remove(a) => |a| case _ => 0
  {
    match op
    case Add(args) =>
      if args != [] {
        var n := |args| - 1;
        AppliedSpaceFree(ts, Add(args[..n]));
        assert args[n] in args;
      }
    case Remove(args) =>
      if args != [] {
        var n := |args| - 1;
        AppliedSpaceFree(ts, Remove(args[..n]));
        RemoveFirstMembers(RemoveAll(ts, args[..n]), Strip(args[n]));
      }
    case Toggle(arg) => RemoveFirstMembers(ts, Strip(arg));
    case Force(arg, on) => RemoveFirstMembers(ts, Strip(arg));
  }

  // The attributes of an element.

  datatype Attr = Attr(name: string, value: string)

  function LowerChar(c: char): char {
    if 'A' <= c <= 'Z' then (c as int + 32) as char else c
  }

  function Lower(s: string): (r: string)
    ensures |r| == |s| && forall i :: 0 <= i < |s| ==> r[i] == LowerChar(s[i])
  {
    if s == "" then "" else [LowerChar(s[0])] + Lower(s[1..])
  }

  function Lookup(attrs: seq<Attr>, n: string): Option<string> {
    if attrs == [] then None else if attrs[0].name == n then Some(attrs[0].value) else Lookup(attrs[1..], n)
  }

  function Store(attrs: seq<Attr>, n: string, v: string): seq<Attr> {
    if attrs == [] then [Attr(n, v)]
    else if attrs[0].name == n then [Attr(n, v)] + attrs[1..]
    else [attrs[0]] + Store(attrs[1..], n, v)
  }

  /** Setting an attribute is seen by reading it, and by reading it alone. */
  lemma {:induction false} StoreThenLookup(attrs: seq<Attr>, n: string, v: string, m: string)
    ensures Lookup(Store(attrs, n, v), m) == if m == n then Some(v) else Lookup(attrs, m)
  {
    if attrs != [] && attrs[0].name != n {
      StoreThenLookup(attrs[1..], n, v, m);
    }
  }

  lemma {:induction false} StoreAt(attrs: seq<Attr>, n: string, v: string, i: nat)
    requires i <= |attrs| && forall j :: 0 <= j < i ==> attrs[j].name != n
    requires i < |attrs| ==> attrs[i].name == n
    ensures Store(attrs, n, v) == if i < |attrs| then attrs[i := Attr(n, v)] else attrs + [Attr(n, v)]
  {
    if i > 0 { StoreAt(attrs[1..], n, v, i - 1); }
  }

  class Element {
    var attributes: seq<Attr>

    constructor (attributes: seq<Attr>)
      ensures this.attributes == attributes
    {
      this.attributes := attributes;
    }

    method GetAttribute(name: string) returns (r: Option<string>)
      ensures r == Lookup(attributes, Lower(name))
    {
      var n := Lower(name);
      var i := 0;
      while i < |attributes|
        invariant i <= |attributes| && Lookup(attributes[i..], n) == Lookup(attributes, n)
      {
        assert attributes[i..][1..] == attributes[i + 1..];
        if attributes[i].name == n {
          return Some(attributes[i].value);
        }
        i := i + 1;
      }
      return None;
    }

    method SetAttribute(name: string, value: string)
      modifies this
      ensures attributes == Store(old(attributes), Lower(name), value)
    {
      var n := Lower(name);
      var i := 0;
      while i < |attributes|
        invariant i <= |attributes| && attributes == old(attributes)
        invariant forall j :: 0 <= j < i ==> attributes[j].name != n
      {
        if attributes[i].name == n {
          StoreAt(attributes, n, value, i);
          attributes := attributes[i := Attr(n, value)];
          return;
        }
        i := i + 1;
      }
      StoreAt(attributes, n, value, i);
      attributes := attributes + [Attr(n, value)];
    }
  }

  function Text(v: Option<string>): string { if v.Some? then v.value else "" }

  class DOMTokenList {
    const element: Element
    const localName: string
    var tokens: seq<string>

    /** What a fresh list over the attribute would be built from. */
    function Value(): string
      reads element
    {
      Text(Lookup(element.attributes, Lower(localName)))
    }

    /** A fresh list shows the live tokens: the same non-empty ones in the same order. */
    ghost predicate InStep()
      reads this, element
    {
      Words(Value()) == NonEmpty(tokens)
    }

    constructor (element: Element, localName: string)
      ensures this.element == element && this.localName == localName
      ensures tokens == Split(Value()) && InStep() && AllSpaceFree(tokens)
    {
      this.element, this.localName := element, localName;
      var v := element.GetAttribute(localName);
      tokens := Split(Text(v));
    }

    method Contains(token: string) returns (r: bool)
      ensures r <==> token in tokens
    {
      var i := 0;
      while i < |tokens|
        invariant i <= |tokens| && token !in tokens[..i]
      {
        if tokens[i] == token {
          return true;
        }
        i := i + 1;
      }
      return false;
    }

    method ToString() returns (value: string)
      ensures value == Join(tokens)
    {
      value := "";
      if tokens == [] {
        return;
      }
      assert Join(tokens[..0]) == "";
      hide Join;
      var i := 0;
      while i < |tokens|
        invariant i <= |tokens| && value == Join(tokens[..i])
      {
        JoinMore(tokens, i);
        if i != 0 {
          value := value + " ";
        }
        value := value + tokens[i];
        i := i + 1;
      }
      assert tokens[..|tokens|] == tokens;
    }

    /** Writes the tokens back to the attribute. */
    method Update()
      modifies element
      ensures localName == "" ==> element.attributes == old(element.attributes)
      ensures localName != "" ==> element.attributes == Store(old(element.attributes), Lower(localName), Join(tokens))
      ensures localName != "" ==> Value() == Join(tokens)
    {
      if localName == "" {
        return;
      }
      var text := ToString();
      StoreThenLookup(element.attributes, Lower(localName), text, Lower(localName));
      element.SetAttribute(localName, text);
    }

    method AddTokens(args: seq<string>)
      modifies this, element
      ensures tokens == Applied(old(tokens), Add(args))
      ensures localName != "" ==> Value() == Join(tokens)
    {
      var i := 0;
      while i < |args|
        invariant i <= |args| && tokens == AddAll(old(tokens), args[..i])
      {
        assert args[..i + 1][..i] == args[..i];
        var token := StripLeadingAndTrailingWhitespace(args[i]);
        if token != "" {
          var there := Contains(token);
          if !there {
            tokens := tokens + [token];
          }
        }
        i := i + 1;
      }
      assert args[..|args|] == args;
      Update();
    }

    method RemoveTokens(args: seq<string>)
      modifies this, element
      ensures tokens == Applied(old(tokens), Remove(args))
      ensures localName != "" ==> Value() == Join(tokens)
    {
      var i := 0;
      while i < |args|
        invariant i <= |args| && tokens == RemoveAll(old(tokens), args[..i])
      {
        assert args[..i + 1][..i] == args[..i];
        var token := StripLeadingAndTrailingWhitespace(args[i]);
        if token != "" {
          Erase(token);
        }
        i := i + 1;
      }
      assert args[..|args|] == args;
      Update();
    }

    /** Erases the first occurrence, if there is one. */
    method Erase(token: string)
      modifies this`tokens
      ensures tokens == RemoveFirst(old(tokens), token)
    {
      var i := 0;
      while i < |tokens|
        invariant i <= |tokens| && tokens == old(tokens)
        invariant token !in tokens[..i]
        invariant tokens[..i] + RemoveFirst(tokens[i..], token) == RemoveFirst(tokens, token)
      {
        assert tokens[i..][1..] == tokens[i + 1..];
        if tokens[i] == token {
          tokens := tokens[..i] + tokens[i + 1..];
          return;
        }
        assert tokens[..i + 1] == tokens[..i] + [tokens[i]];
        i := i + 1;
      }
    }

    method ToggleToken(arg: string) returns (added: bool)
      modifies this, element
      ensures tokens == Applied(old(tokens), Toggle(arg))
      ensures localName != "" && Strip(arg) != "" ==> Value() == Join(tokens)
      ensures Strip(arg) == "" ==> element.attributes == old(element.attributes)
      ensures added <==> Strip(arg) != "" && Strip(arg) !in old(tokens)
    {
      var t := StripLeadingAndTrailingWhitespace(arg);
      if t == "" {
        return false;
      }
      var found := Contains(t);
      if found {
        Erase(t);
        Update();
        return false;
      } else {
        tokens := tokens + [t];
        Update();
        return true;
      }
    }

    method ToggleForce(arg: string, force: bool) returns (r: bool)
      modifies this, element
      ensures tokens == Applied(old(tokens), Force(arg, force))
      ensures localName != "" && tokens != old(tokens) ==> Value() == Join(tokens)
      ensures tokens == old(tokens) ==> element.attributes == old(element.attributes)
      ensures r <==> Strip(arg) != "" && force
    {
      var t := StripLeadingAndTrailingWhitespace(arg);
      if t == "" {
        return false;
      }
      var found := Contains(t);
      if force {
        if !found {
          tokens := tokens + [t];
          Update();
        }
        return true;
      } else {
        if found {
          RemoveShortens(tokens, t);
          Erase(t);
          Update();
        } else {
          RemoveAbsent(tokens, t);
        }
        return false;
      }
    }

    /** One operation keeps the attribute in step with the live list. */
    method Perform(op: Op)
      requires localName != "" && InStep() && AllSpaceFree(tokens) && CleanOp(op)
      modifies this, element
      ensures tokens == Applied(old(tokens), op) && InStep() && AllSpaceFree(tokens)
    {
      AppliedSpaceFree(tokens, op);
      JoinSplits(Applied(tokens, op));
      match op
      case Add(args) => AddTokens(args);
      case Remove(args) => RemoveTokens(args);
      case Toggle(arg) => var b := ToggleToken(arg);
      case Force(arg, on) => var b := ToggleForce(arg, on);
    }

    /**
     * After any run of operations a fresh list shows the live tokens, and no token is listed twice that was not before.
     */
    method PerformAll(ops: seq<Op>)
      requires localName != "" && InStep() && AllSpaceFree(tokens) && forall op :: op in ops ==> CleanOp(op)
      modifies this, element
      ensures tokens == AppliedAll(old(tokens), ops) && InStep() && AllSpaceFree(tokens)
      ensures NoNewDuplicates(old(tokens), tokens)
    {
      assert ops[..0] == [];
      for i := 0 to |ops|
        invariant tokens == AppliedAll(old(tokens), ops[..i]) && InStep() && AllSpaceFree(tokens)
        invariant NoNewDuplicates(old(tokens), tokens)
      {
        assert ops[..i + 1][..i] == ops[..i];
        AppliedNoDup(tokens, ops[i]);
        Perform(ops[i]);
      }
      assert ops[..|ops|] == ops;
    }
  }

  lemma {:induction false} JoinLast(ts: seq<string>, t: string)
    ensures Join(ts + [t]) == if ts == [] then t else Join(ts) + " " + t
  {
    if |ts| > 1 {
      assert (ts + [t])[1..] == ts[1..] + [t];
      JoinLast(ts[1..], t);
    }
  }

  lemma JoinMore(ts: seq<string>, i: nat)
    requires i < |ts|
    ensures Join(ts[..i + 1]) == if i == 0 then Join(ts[..i]) + ts[i] else Join(ts[..i]) + " " + ts[i]
  {
    assert ts[..i + 1] == ts[..i] + [ts[i]];
    JoinLast(ts[..i], ts[i]);
  }

  lemma {:induction false} RemoveShortens(ts: seq<string>, t: string)
    requires t in ts
    ensures |RemoveFirst(ts, t)| == |ts| - 1
  {
    if ts[0] != t { RemoveShortens(ts[1..], t); }
  }

  lemma {:induction false} RemoveAbsent(ts: seq<string>, t: string)
    requires t !in ts
    ensures RemoveFirst(ts, t) == ts
  {
    if ts != [] { RemoveAbsent(ts[1..], t); }
  }

  lemma SpacesSplit()
    ensures Split("") == [""] && Split(" a b") == ["", "a", "b"] && Split("a a") == ["a", "a"]
  {
    SplitSpaceFree("a");
    SplitSpaceFree("b");
    SplitSpaceFree("");
    hide Split;
    SplitAtSpace("a", "b");
    SplitAtSpace("a", "a");
    SplitAtSpace("", "a b");
    assert "" + " " + "a b" == " a b" && "a" + " " + "b" == "a b" && "a" + " " + "a" == "a a";
  }

  lemma PlainArguments()
    ensures Lower("class") == "class" && Strip("a b") == "a b" && Strip("a") == "a"
  {
  }

  /** A token with white space inside is one token of the live list and two of a fresh one. */
  method AddWithSpace() returns (live: seq<string>, again: seq<string>)
    ensures live == ["", "a b"] && again == ["", "a", "b"]
  {
    SpacesSplit();
    PlainArguments();
    var element := new Element([Attr("class", "")]);
    var list := new DOMTokenList(element, "class");
    list.AddTokens(["a b"]);
    var reader := new DOMTokenList(element, "class");
    live, again := list.tokens, reader.tokens;
  }

  /** A token that the attribute lists twice is still there when it has been removed. */
  method RemoveOfTwo() returns (live: seq<string>)
    ensures live == ["a"]
  {
    SpacesSplit();
    PlainArguments();
    var element := new Element([Attr("class", "a a")]);
    var list := new DOMTokenList(element, "class");
    list.RemoveTokens(["a"]);
    live := list.tokens;
  }
}
