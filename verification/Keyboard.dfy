/**
 * The keyboard driver's report of the keys that are down, and what the merge of two such reports tells.
 */
module Keyboard {

  import opened Modifiers
  import opened KeyMerge

  /** The first of the eight modifier keys, with which the last word of the table begins. */
  const LEFT_CONTROL := 224

  /** What the event manager has room for. */
  const ROOM := 8

  const OFF: seq<bool> := seq(32, _ => false)

  type Word = w: seq<bool> | |w| == 32 witness OFF

  /** Which keys are down: a bit for each of 256, in eight words, the lowest bit first. */
  type Table = t: seq<Word> | |t| == 8 witness [OFF, OFF, OFF, OFF, OFF, OFF, OFF, OFF]

  predicate IsDown(table: Table, k: u8) { table[k / 32][k % 32] }

  /** The low byte of a word. */
  function LowByte(w: Word): u8 { ByteOf(w[..8]) }

  /** The keys down from bit j of word i on, the modifiers not among them. */
  function DownFrom(table: Table, i: nat, j: nat): (keys: seq<u8>)
    requires i <= 7 && j <= 32
    decreases 7 - i, 32 - j
  {
    if i == 7 then [] else if j == 32 then DownFrom(table, i + 1, 0)
    else if table[i][j] then [32 * i + j] + DownFrom(table, i, j + 1)
    else DownFrom(table, i, j + 1)
  }

  function KeysDown(table: Table): seq<u8> { DownFrom(table, 0, 0) }

  lemma {:induction false} DownFromIs(table: Table, i: nat, j: nat)
    requires i <= 7 && j <= 32
    ensures Ascending(DownFrom(table, i, j))
    ensures forall k: u8 :: k in DownFrom(table, i, j) <==> 32 * i + j <= k < LEFT_CONTROL && IsDown(table, k)
    decreases 7 - i, 32 - j
  {
    if i == 7 {
    } else if j == 32 {
      DownFromIs(table, i + 1, 0);
    } else {
      DownFromIs(table, i, j + 1);
      KeyPlace(i, j);
      var k, rest := 32 * i + j, DownFrom(table, i, j + 1);
      assert forall x :: x in [k] + rest <==> x == k || x in rest;
      assert IsDown(table, k) <==> table[i][j];
      AscendingWith(k, rest);
    }
  }

  lemma KeyPlace(i: nat, j: nat)
    requires j < 32
    ensures (32 * i + j) / 32 == i && (32 * i + j) % 32 == j
  {
  }

  lemma AscendingWith(k: u8, s: seq<u8>)
    requires Ascending(s) && forall x :: x in s ==> k < x
    ensures Ascending([k] + s)
  {
    forall x | 0 <= x < |s| ensures k < s[x] { assert s[x] in s; }
  }

  /** The list of the keys down: all of them below the modifiers, and in ascending order. */
  lemma KeysDownIs(table: Table)
    ensures Ascending(KeysDown(table))
    ensures forall k: u8 :: k in KeysDown(table) <==> k < LEFT_CONTROL && IsDown(table, k)
  {
    DownFromIs(table, 0, 0);
  }

  lemma {:induction false} Skip(table: Table, i: nat, j: nat, to: nat)
    requires i < 7 && j <= to <= 32 && forall x :: j <= x < to ==> !table[i][x]
    ensures DownFrom(table, i, j) == DownFrom(table, i, to)
    decreases 32 - j
  {
    if j < to { Skip(table, i, j + 1, to); }
  }

  /** As many bytes of a report as there is room for: the modifiers, then the lowest keys down. */
  function Packet(table: Table, room: nat): seq<u8>
    requires 0 < room
  {
    var keys := KeysDown(table);
    [LowByte(table[7])] + if room - 1 < |keys| then keys[..room - 1] else keys
  }

  /** The packet holds the modifiers and the keys before bit j of word i. */
  ghost predicate Found(table: Table, packet: seq<u8>, i: nat, j: nat) {
    && i <= 8 && j <= 32 && packet != [] && packet[0] == LowByte(table[7])
    && KeysDown(table) == packet[1..] + if i < 7 then DownFrom(table, i, j) else []
  }

  lemma FindsKey(table: Table, packet: seq<u8>, i: nat, j: nat, bit: nat)
    requires Found(table, packet, i, j) && i < 7 && j <= bit < 32
    requires table[i][bit] && forall x :: j <= x < bit ==> !table[i][x]
    ensures Found(table, packet + [32 * i + bit], i, bit + 1)
  {
    Skip(table, i, j, bit);
    assert (packet + [32 * i + bit])[1..] == packet[1..] + [32 * i + bit];
    Associates(packet[1..], [32 * i + bit], DownFrom(table, i, bit + 1));
  }

  lemma FindsNoMore(table: Table, packet: seq<u8>, i: nat, j: nat)
    requires Found(table, packet, i, j) && i < 8 && (i < 7 ==> forall x :: j <= x < 32 ==> !table[i][x])
    ensures Found(table, packet, i + 1, 0)
  {
    if i < 7 {
      Skip(table, i, j, 32);
      assert DownFrom(table, 7, 0) == [];
    }
  }

  /** The packet is full, or there are no more words. */
  lemma FindsAll(table: Table, packet: seq<u8>, i: nat, j: nat, room: nat)
    requires Found(table, packet, i, j) && 0 < room && (|packet| == room || (i == 8 && |packet| < room))
    ensures packet == Packet(table, room)
  {
    hide DownFrom, LowByte;
    assert packet == [packet[0]] + packet[1..];
  }

  /** What is left of a word when the bits before j are cleared. */
  predicate From(bits: seq<bool>, word: Word, j: nat) {
    |bits| == 32 && j <= 32 && forall x :: 0 <= x < 32 ==> bits[x] == (j <= x && word[x])
  }

  lemma AllOfIt(word: Word)
    ensures From(word, word, 0)
  {
  }

  lemma BitsFrom(bits: seq<bool>, word: Word, j: nat)
    requires From(bits, word, j)
    ensures |bits| == 32 && j <= 32 && forall x :: j <= x < FirstBit(bits) ==> !word[x]
    ensures var bit := FirstBit(bits);
      bit < |bits| ==> j <= bit && word[bit] && From(bits[bit := false], word, bit + 1)
  {
  }

  /** The first bit left is the next key, or a modifier. */
  lemma FindsNext(table: Table, packet: seq<u8>, i: nat, j: nat, bits: seq<bool>)
    requires Found(table, packet, i, j) && i < 8 && From(bits, table[i], j) && FirstBit(bits) < |bits|
    ensures var bit := FirstBit(bits);
      && |bits| == 32 && j <= bit < 32 && From(bits[bit := false], table[i], bit + 1)
      && (i < 7 ==> Found(table, packet + [32 * i + bit], i, bit + 1))
  {
    hide Found, From, FirstBit;
    BitsFrom(bits, table[i], j);
    if i < 7 { FindsKey(table, packet, i, j, FirstBit(bits)); }
  }

  lemma FindsNone(table: Table, packet: seq<u8>, i: nat, j: nat, bits: seq<bool>)
    requires Found(table, packet, i, j) && i < 8 && (i < 7 ==> From(bits, table[i], j) && FirstBit(bits) == |bits|)
    ensures Found(table, packet, i + 1, 0)
  {
    hide Found, From, FirstBit;
    if i < 7 { BitsFrom(bits, table[i], j); }
    FindsNoMore(table, packet, i, j);
  }

  /** The loop over the bits of one word, until the packet is full or a modifier is met. */
  method ReadWord(table: Table, i: nat, before: seq<u8>, room: nat) returns (packet: seq<u8>)
    requires i < 8 && |before| < room && Found(table, before, i, 0)
    ensures if |packet| < room then Found(table, packet, i + 1, 0) else packet == Packet(table, room)
  {
    hide Found, LowByte, Packet, FirstBit, From;
    packet := before;
    var bits: seq<bool> := table[i];
    ghost var j := 0;
    AllOfIt(bits);
    while FirstBit(bits) < |bits|
      invariant j <= 32 && From(bits, table[i], j) && |packet| < room && Found(table, packet, i, j)
      decreases 32 - j
    {
      var bit := FirstBit(bits);
      FindsNext(table, packet, i, j, bits);
      bits := bits[bit := false];
      var key: u8 := 32 * i + bit;
      if LEFT_CONTROL <= key {
        break;
      }
      packet := packet + [key];
      j := bit + 1;
      if room <= |packet| {
        FindsAll(table, packet, i, j, room);
        return;
      }
    }
    FindsNone(table, packet, i, j, bits);
  }

  /** The driver's read, into a buffer of at least two bytes. */
  method ReadKeyboard(table: Table, count: int) returns (packet: seq<u8>)
    requires count <= 0 || 2 <= count
    ensures packet == if count <= 0 then [] else Packet(table, if 257 < count then 257 else count)
  {
    if count <= 0 {
      return [];
    }
    var room := if 257 < count then 257 else count;
    packet := [LowByte(table[7])];
    for i := 0 to 8
      invariant |packet| < room && Found(table, packet, i, 0)
    {
      packet := ReadWord(table, i, packet, room);
      if room <= |packet| {
        return;
      }
    }
    FindsAll(table, packet, 8, 0, room);
  }

  /** A report as the driver makes it: a byte of modifiers, then keys below them in ascending order. */
  predicate IsPacket(data: seq<u8>) {
    data != [] && Ascending(data[1..]) && forall k :: k in data[1..] ==> k < LEFT_CONTROL
  }

  lemma PacketIs(table: Table, room: nat)
    requires 0 < room
    ensures IsPacket(Packet(table, room))
  {
    KeysDownIs(table);
    var keys := KeysDown(table);
    var some := if room - 1 < |keys| then keys[..room - 1] else keys;
    assert Packet(table, room)[1..] == some;
    assert forall k :: k in some ==> k in keys;
  }

  /** Such a report is padded, and its keys are those that fit. */
  lemma PacketKeys(data: seq<u8>)
    requires IsPacket(data)
    ensures Padded(Report(data)) && Ascending(Keys(Report(data))) && NONE !in Keys(Report(data))
    ensures Keys(Report(data)) == data[1..if ROOM < |data| then ROOM else |data|]
  {
    WithoutPadding(data);
    var n := if ROOM < |data| then ROOM else |data|;
    assert forall i :: 0 <= i < n - 1 ==> data[1..n][i] == data[1..][i];
  }

  /**
   * Any two reports of the driver are aligned: what goes up is what only the first has, what goes down what only the
   * second has.
   */
  lemma PacketsExact(before: seq<u8>, after: seq<u8>, notify: bool, es: seq<Event>)
    requires IsPacket(before) && IsPacket(after) && Reported(Report(before), Report(after), notify, es)
    ensures Aligned(Keys(Report(before)), Keys(Report(after)))
    ensures Exact(Keys(Report(before)), Keys(Report(after)), es)
  {
    PacketKeys(before);
    PacketKeys(after);
    hide Keys, Padded, Report, Aligned, Exact, Balanced;
    AscendingAligned(Keys(Report(before)), Keys(Report(after)));
  }

  /** The keys of a table that the event manager is told of. */
  function Told(table: Table): seq<u8> {
    var keys := KeysDown(table);
    if ROOM - 1 < |keys| then keys[..ROOM - 1] else keys
  }

  lemma ToldIs(table: Table)
    ensures IsPacket(Packet(table, ROOM)) && Keys(Report(Packet(table, ROOM))) == Told(table)
  {
    hide Padded, Keys, Report, IsPacket, KeysDown, LowByte;
    PacketIs(table, ROOM);
    PacketKeys(Packet(table, ROOM));
    assert Packet(table, ROOM)[1..] == Told(table);
  }

  /** The modifier keys that are down. */
  function ModifiersDown(table: Table): Bits { table[7][..8] }

  /** What was told before that round, and the modifiers then held; at first none. */
  function LastTold(tables: seq<Table>, i: nat): seq<u8>
    requires i <= |tables|
  {
    if i == 0 then [] else Told(tables[i - 1])
  }

  function LastHeld(tables: seq<Table>, i: nat): Bits
    requires i <= |tables|
  {
    if i == 0 then BitsOf(0) else ModifiersDown(tables[i - 1])
  }

  /** The modifiers no longer held are told down, and those newly held up, each once and in order. */
  ghost predicate ToldBackwards(was: Bits, now: Bits, es: seq<Event>) {
    ModifierDowns(es) == On(Only(was, now)) && ModifierUps(es) == On(Only(now, was))
  }

  /**
   * In each round the keys not told any more went up and those newly told went down, each once and in order, and no
   * other; and the modifiers the other way round.
   */
  ghost predicate Truthful(tables: seq<Table>, rounds: seq<seq<Event>>) {
    && |rounds| <= |tables|
    && forall i :: 0 <= i < |rounds| ==>
         && Exact(LastTold(tables, i), Told(tables[i]), rounds[i])
         && ToldBackwards(LastHeld(tables, i), ModifiersDown(tables[i]), rounds[i])
  }

  /** The manager's report is that of the last round. */
  ghost predicate UpToDate(tables: seq<Table>, i: nat, key: seq<u8>, last: seq<u8>)
    requires i <= |tables|
  {
    && IsPacket(last) && key == Report(last) && Keys(Report(last)) == LastTold(tables, i)
    && BitsOf(Report(last)[0]) == LastHeld(tables, i)
  }

  lemma OneRound(tables: seq<Table>, rounds: seq<seq<Event>>, key: seq<u8>, last: seq<u8>, notify: bool, es: seq<Event>)
    requires Truthful(tables, rounds) && |rounds| < |tables| && UpToDate(tables, |rounds|, key, last)
    requires var packet := Packet(tables[|rounds|], ROOM);
      IsReport(key) && Reported(key, Report(packet), notify, es)
    ensures Truthful(tables, rounds + [es])
    ensures var packet := Packet(tables[|rounds|], ROOM);
      IsReport(Report(packet)) && UpToDate(tables, |rounds| + 1, Report(packet), packet)
  {
    assert ROOM == 8;
    hide Truthful, UpToDate, Reported, Packet, Report, Keys, Told, LastTold, LastHeld, BitsOf, Exact, Aligned,
         ToldBackwards, ModifiersDown, IsPacket;
    var table, i := tables[|rounds|], |rounds|;
    var packet := Packet(table, ROOM);
    UpToDateIs(tables, i, key, last);
    ToldIs(table);
    HeldIs(table);
    PacketsExact(last, packet, notify, es);
    ToldRound(key, Report(packet), notify, es);
    NowUpToDate(tables, i);
    RoundMore(tables, rounds, es);
  }

  lemma UpToDateIs(tables: seq<Table>, i: nat, key: seq<u8>, last: seq<u8>)
    requires i <= |tables| && UpToDate(tables, i, key, last)
    ensures IsPacket(last) && key == Report(last) && Keys(Report(last)) == LastTold(tables, i)
    ensures BitsOf(Report(last)[0]) == LastHeld(tables, i)
  {
    hide IsPacket;
  }

  lemma HeldIs(table: Table)
    ensures BitsOf(Report(Packet(table, ROOM))[0]) == ModifiersDown(table)
  {
    ByteAndBits(0, table[7][..8]);
    hide BitsOf, ByteOf, KeysDown;
  }

  lemma ToldRound(k: seq<u8>, n: seq<u8>, notify: bool, es: seq<Event>)
    requires IsReport(k) && IsReport(n) && Reported(k, n, notify, es)
    ensures ToldBackwards(BitsOf(k[0]), BitsOf(n[0]), es)
  {
    hide Merged, Keys, Padded, ModifierEvents, BitsOf, ModifierUps, ModifierDowns, On;
  }

  lemma NowUpToDate(tables: seq<Table>, i: nat)
    requires i < |tables| && IsPacket(Packet(tables[i], ROOM))
    requires Keys(Report(Packet(tables[i], ROOM))) == Told(tables[i])
    requires BitsOf(Report(Packet(tables[i], ROOM))[0]) == ModifiersDown(tables[i])
    ensures UpToDate(tables, i + 1, Report(Packet(tables[i], ROOM)), Packet(tables[i], ROOM))
  {
    hide Keys, Told, Packet, Report, BitsOf, IsPacket, ModifiersDown;
  }

  lemma RoundMore(tables: seq<Table>, rounds: seq<seq<Event>>, es: seq<Event>)
    requires Truthful(tables, rounds) && |rounds| < |tables|
    requires Exact(LastTold(tables, |rounds|), Told(tables[|rounds|]), es)
    requires ToldBackwards(LastHeld(tables, |rounds|), ModifiersDown(tables[|rounds|]), es)
    ensures Truthful(tables, rounds + [es])
  {
    hide Exact, Told, LastTold, LastHeld, ModifiersDown, ToldBackwards;
  }

  lemma Untouched(tables: seq<Table>)
    ensures UpToDate(tables, 0, Report([0]), [0]) && Truthful(tables, [])
  {
    PacketKeys([0]);
    hide Keys;
  }

  /** The event loop: the driver is read again and again, and its report handed to the event manager. */
  method Watch(manager: EventManager, tables: seq<Table>) returns (rounds: seq<seq<Event>>)
    requires manager.Valid() && manager.registered && manager.key[..] == Report([0])
    modifies manager, manager.key
    ensures manager.Valid() && |rounds| == |tables| && Truthful(tables, rounds)
  {
    assert ROOM == 8 && IsReport(manager.key[..]);
    hide *;
    rounds := [];
    ghost var last: seq<u8> := [0];
    Untouched(tables);
    for i := 0 to |tables|
      invariant manager.Valid() && manager.registered && IsReport(manager.key[..])
      invariant UpToDate(tables, i, manager.key[..], last)
      invariant |rounds| == i && Truthful(tables, rounds)
    {
      ghost var key := manager.key[..];
      var notify, es := Round(manager, tables[i]);
      OneRound(tables, rounds, key, last, notify, es);
      rounds := rounds + [es];
      last := Packet(tables[i], ROOM);
    }
  }

  /** One round: the driver is read, and its report handed on. */
  method Round(manager: EventManager, table: Table) returns (notify: bool, es: seq<Event>)
    requires manager.Valid() && manager.registered && IsReport(manager.key[..])
    modifies manager, manager.key
    ensures manager.Valid() && manager.key[..] == Report(Packet(table, ROOM)) && IsReport(old(manager.key[..]))
    ensures Reported(old(manager.key[..]), Report(Packet(table, ROOM)), notify, es)
  {
    assert ROOM == 8;
    hide *;
    var packet := ReadKeyboard(table, ROOM);
    var sent := |manager.sent|;
    notify := manager.KeyEvent(packet);
    es := manager.sent[sent..];
  }
}
