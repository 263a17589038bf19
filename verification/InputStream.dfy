/**
 * U16InputStream: bytes are refilled into a fixed buffer, a converter turns them into UTF-16
 * in chunks of its own choosing, and getChar normalises newlines, NUL and U+FEFF on the fly.
 */
module InputStream {

  type Octet = x: int | 0 <= x < 256
  type Unit = x: int | 0 <= x < 0x10000

  const LF: Unit := 10
  const CR: Unit := 13
  const BOM: Unit := 0xFEFF
  const CHUNK_SIZE: nat := 512

  // The whole-text meaning: drop U+FEFF, then CR LF and CR to LF, then NUL to U+FFFD.

  function DropBoms(s: seq<Unit>): seq<Unit> {
    if s == [] then [] else (if s[0] == BOM then [] else [s[0]]) + DropBoms(s[1..])
  }

  function UnifyNewlines(s: seq<Unit>): seq<Unit> {
    if s == [] then []
    else if s[0] == CR then [LF] + UnifyNewlines(if |s| > 1 && s[1] == LF then s[2..] else s[1..])
    else [s[0]] + UnifyNewlines(s[1..])
  }

  function ReplaceNuls(s: seq<Unit>): seq<Unit> {
    if s == [] then [] else [if s[0] == 0 then 0xFFFD else s[0]] + ReplaceNuls(s[1..])
  }

  function Normal(s: seq<Unit>): seq<Unit> {
    ReplaceNuls(UnifyNewlines(DropBoms(s)))
  }

  // The same, one unit at a time with the last raw unit as the only memory.

  function Shown(c: Unit): Unit {
    if c == CR then LF else if c == 0 then 0xFFFD else c
  }

  function Stream(last: Unit, s: seq<Unit>): seq<Unit>
    decreases |s|
  {
    if s == [] then []
    else if last == CR && s[0] == LF then Stream(LF, s[1..])
    else if s[0] == BOM then Stream(last, s[1..])
    else [Shown(s[0])] + Stream(s[0], s[1..])
  }

  /** Reading unit by unit yields the whole-text function, from any state. */
  lemma {:induction false} StreamIsNormal(last: Unit, s: seq<Unit>)
    ensures var d := DropBoms(s);
      Stream(last, s) == ReplaceNuls(UnifyNewlines(if last == CR && d != [] && d[0] == LF then d[1..] else d))
    decreases |s|
  {
    if s != [] {
      var t := s[1..];
      if last == CR && s[0] == LF {
        StreamIsNormal(LF, t);
        assert DropBoms(s)[1..] == DropBoms(t);
      } else if s[0] == BOM {
        StreamIsNormal(last, t);
        assert DropBoms(s) == DropBoms(t);
      } else {
        StreamIsNormal(s[0], t);
        var e := DropBoms(t);
        assert DropBoms(s) == [s[0]] + e;
        assert ([s[0]] + e)[1..] == e;
        assert e != [] ==> ([s[0]] + e)[2..] == e[1..];
        var u := UnifyNewlines(if s[0] == CR && e != [] && e[0] == LF then e[1..] else e);
        var c := if s[0] == CR then LF else s[0];
        assert UnifyNewlines([s[0]] + e) == [c] + u;
        assert ([c] + u)[1..] == u;
      }
    }
  }

  class U16InputStream {
    const input: seq<Octet>
    const decode: seq<Octet> -> seq<Unit>
    const encodingGiven: bool
    var unread: seq<Octet>
    var converter: bool
    var emitted: nat
    var eof: bool
    var flush: bool
    const sourceBuffer: array<Octet>
    var source: nat
    var sourceLimit: nat
    var target: seq<Unit>
    var nextChar: nat
    var lastChar: Unit
    ghost var consumed: seq<Octet>

    ghost predicate BytesKept()
      reads `unread, `source, `sourceLimit, `consumed, sourceBuffer
    {
      && sourceBuffer.Length == CHUNK_SIZE + 1
      && source <= sourceLimit <= CHUNK_SIZE
      && consumed + sourceBuffer[source..sourceLimit] + unread == input
    }

    ghost predicate Valid()
      reads `unread, `source, `sourceLimit, `consumed, `emitted, `nextChar, `target, `flush, `eof, sourceBuffer
    {
      && BytesKept()
      && emitted <= |decode(input)| && nextChar <= |target|
      && (flush ==> emitted == |decode(input)|)
      && (eof ==> flush && nextChar == |target|)
    }

    /** How many bytes the converter has left. */
    ghost function BytesLeft(): nat
      requires BytesKept()
      reads `unread, `source, `sourceLimit, `consumed, sourceBuffer
    {
      sourceLimit - source
    }

    /** The decoded units that getChar has not passed yet. */
    ghost function Raw(): seq<Unit>
      requires nextChar <= |target| && emitted <= |decode(input)|
      reads `nextChar, `target, `emitted
    {
      target[nextChar..] + decode(input)[emitted..]
    }

    /** Everything getChar will still return. */
    ghost function ToCome(): seq<Unit>
      requires nextChar <= |target| && emitted <= |decode(input)|
      reads `nextChar, `target, `emitted, `lastChar
    {
      Stream(lastChar, Raw())
    }

    constructor (input: seq<Octet>, decode: seq<Octet> -> seq<Unit>, encodingGiven: bool)
      ensures Valid() && fresh(sourceBuffer) && this.input == input && this.decode == decode
      ensures ToCome() == Normal(decode(input))
    {
      this.input, this.decode, this.encodingGiven := input, decode, encodingGiven;
      unread, converter, emitted := input, false, 0;
      eof, flush := false, false;
      sourceBuffer := new Octet[CHUNK_SIZE + 1](_ => 0);
      source, sourceLimit := 0, 0;
      target, nextChar, lastChar := [], 0, 0;
      consumed := [];
      new;
      assert Raw() == decode(input);
      StreamIsNormal(0, decode(input));
    }

    /** memmove(sourceBuffer, source, count) for source at or above the buffer start. */
    method ShiftDown(count: nat)
      requires source + count <= sourceBuffer.Length
      modifies sourceBuffer
      ensures sourceBuffer[..count] == old(sourceBuffer[source..source + count])
    {
      for i := 0 to count
        invariant sourceBuffer[..i] == old(sourceBuffer[source..source + i])
        invariant sourceBuffer[source + i..] == old(sourceBuffer[source + i..])
      {
        assert sourceBuffer[source + i] == sourceBuffer[source + i..][0];
        sourceBuffer[i] := sourceBuffer[source + i];
      }
    }

    /** stream.read: as many bytes as asked for, or all that are left. */
    method Read(at: nat, count: nat) returns (got: nat)
      requires at + count < sourceBuffer.Length
      modifies sourceBuffer, this`unread
      ensures got == if count <= |old(unread)| then count else |old(unread)|
      ensures sourceBuffer[..at] == old(sourceBuffer[..at])
      ensures sourceBuffer[at..at + got] + unread == old(unread)
    {
      got := if count <= |unread| then count else |unread|;
      for i := 0 to got
        invariant unread == old(unread) && sourceBuffer[..at] == old(sourceBuffer[..at])
        invariant sourceBuffer[at..at + i] == unread[..i]
      {
        sourceBuffer[at + i] := unread[i];
      }
      unread := unread[got..];
    }

    /** The bytes at hand, in order: those in the buffer, then those in the stream. */
    ghost function AtHand(): seq<Octet>
      requires source <= sourceLimit <= sourceBuffer.Length
      reads this, sourceBuffer
    {
      sourceBuffer[source..sourceLimit] + unread
    }

    /** Moves the bytes the converter left to the front. */
    method Compact()
      requires sourceBuffer.Length == CHUNK_SIZE + 1 && source <= sourceLimit <= CHUNK_SIZE
      modifies this`source, this`sourceLimit, sourceBuffer
      ensures source == 0 && sourceLimit == old(sourceLimit - source) && AtHand() == old(AtHand())
    {
      var count := sourceLimit - source;
      if 0 < count && source != 0 {
        ShiftDown(count);
      }
      assert sourceBuffer[0..count] == old(sourceBuffer[source..sourceLimit]);
      source := 0;
      sourceLimit := source + count;
    }

    /** Fills up behind the bytes kept; the first time round the encoding is settled too. */
    method Refill()
      requires sourceBuffer.Length == CHUNK_SIZE + 1 && source == 0 && sourceLimit < CHUNK_SIZE && !flush
      modifies this`unread, this`sourceLimit, this`flush, this`converter, sourceBuffer
      ensures sourceLimit <= CHUNK_SIZE && AtHand() == old(AtHand())
      ensures flush == (old(unread) == []) && (flush || |unread| < |old(unread)|)
    {
      ghost var kept, before := sourceBuffer[..sourceLimit], unread;
      assert AtHand() == kept + before;
      var count := Read(sourceLimit, CHUNK_SIZE - sourceLimit);
      Appended(kept, sourceBuffer[..], sourceLimit, count, before, unread);
      var limit := sourceLimit + count;
      assert sourceBuffer[..limit] + unread == kept + before;
      if !converter {
        if !encodingGiven {
          Terminate(limit);
        }
        converter := true;
      }
      sourceLimit := limit;
      if count == 0 {
        flush := true;
      }
    }

    /** A NUL behind the bytes, for the detection of the encoding. */
    method Terminate(at: nat)
      requires at < sourceBuffer.Length
      modifies sourceBuffer
      ensures sourceBuffer[..at] == old(sourceBuffer[..at])
    {
      sourceBuffer[at] := 0;
    }

    /**
     * Keeps the bytes the converter left, moves them to the front and fills up behind them:
     * no byte lost or repeated, never past the limit. The end of the stream sets flush.
     */
    method UpdateSource()
      requires BytesKept() && !flush
      modifies this`unread, this`source, this`sourceLimit, this`flush, this`converter, sourceBuffer
      ensures BytesKept() && source == 0
      ensures old(sourceLimit - source) == CHUNK_SIZE ==> unread == old(unread) && sourceLimit == CHUNK_SIZE && !flush
      ensures old(sourceLimit - source) < CHUNK_SIZE ==> flush == (old(unread) == [])
      ensures old(sourceLimit - source) < CHUNK_SIZE ==> (flush || |unread| < |old(unread)|)
    {
      assert consumed + AtHand() == input;
      Compact();
      if 0 < CHUNK_SIZE - sourceLimit {
        Refill();
      }
      assert consumed + AtHand() == consumed + sourceBuffer[source..sourceLimit] + unread;
    }

    lemma Appended(kept: seq<Octet>, buffer: seq<Octet>, at: nat, got: nat, before: seq<Octet>, after: seq<Octet>)
      requires at + got <= |buffer| && buffer[..at] == kept && buffer[at..at + got] + after == before
      ensures buffer[..at + got] + after == kept + before
    {
      var read := buffer[at..at + got];
      assert buffer[..at + got] == kept + read;
      assert kept + read + after == kept + (read + after);
    }

    /**
     * ucnv_toUnicode, with any behaviour it may have: it takes some of the bytes offered and
     * emits some more of the decoded text. A full buffer makes it take something, and the
     * flushing call takes and emits all that is left.
     */
    method Convert()
      requires BytesKept() && emitted <= |decode(input)|
      modifies this`source, this`target, this`emitted, this`consumed
      ensures BytesKept() && sourceLimit == old(sourceLimit) && source >= old(source)
      ensures old(sourceLimit - source) == CHUNK_SIZE ==> source > old(source)
      ensures old(emitted) <= emitted <= |decode(input)| && target == decode(input)[old(emitted)..emitted]
      ensures flush ==> emitted == |decode(input)|
    {
      var avail := sourceLimit - source;
      var k: nat :| k <= avail && (flush ==> k == avail) && (avail == CHUNK_SIZE ==> k > 0);
      var n: nat :| emitted <= n <= |decode(input)| && (flush ==> n == |decode(input)|);
      consumed := consumed + sourceBuffer[source..source + k];
      source := source + k;
      target := decode(input)[emitted..n];
      emitted := n;
    }

    method ReadChunk()
      requires Valid() && !flush && nextChar == |target|
      modifies this`unread, this`source, this`sourceLimit, this`flush, this`converter, sourceBuffer
      modifies this`target, this`nextChar, this`emitted, this`consumed
      ensures Valid() && Raw() == old(Raw())
      ensures flush || |unread| < |old(unread)| || (|unread| == |old(unread)| && BytesLeft() < old(BytesLeft()))
    {
      nextChar, target := 0, [];
      UpdateSource();
      Convert();
      assert decode(input)[old(emitted)..emitted] + decode(input)[emitted..] == decode(input)[old(emitted)..];
    }

    /** What is left once the unit at hand is passed. */
    ghost function Behind(): seq<Unit>
      requires nextChar < |target| && emitted <= |decode(input)|
      reads `nextChar, `target, `emitted
    {
      target[nextChar + 1..] + decode(input)[emitted..]
    }

    lemma RawAhead()
      requires nextChar < |target| && emitted <= |decode(input)|
      ensures Raw() == [target[nextChar]] + Behind()
    {
    }

    lemma NothingAhead()
      requires Valid() && eof
      ensures Raw() == [] && ToCome() == []
    {
    }

    lemma StreamAhead(last: Unit, c: Unit, s: seq<Unit>)
      ensures Stream(last, [c] + s) == if last == CR && c == LF then Stream(LF, s)
        else if c == BOM then Stream(last, s) else [Shown(c)] + Stream(c, s)
    {
      assert ([c] + s)[1..] == s;
    }

    /** The loop over the units at hand: passes those that are not to be seen. */
    method PeekAtHand() returns (ok: bool, c: Unit)
      requires Valid() && !eof
      modifies `lastChar, `nextChar
      ensures Valid() && ToCome() == old(ToCome()) && (ok <==> nextChar < |target|)
      ensures ok ==> ToCome() == [c] + Stream(target[nextChar], Behind())
    {
      hide BytesKept, Stream, Raw, Behind;
      c := 0;
      while nextChar < |target|
        invariant Valid() && ToCome() == old(ToCome())
        decreases |target| - nextChar
      {
        c := target[nextChar];
        RawAhead();
        StreamAhead(lastChar, c, Behind());
        if lastChar == CR && c == LF {
          lastChar := LF;
          Pass();
          continue;
        }
        if c == CR {
          c := LF;
        } else if c == 0 {
          c := 0xFFFD;
        } else if c == BOM {
          Pass();
          continue;
        }
        return true, c;
      }
      return false, c;
    }

    method Pass()
      requires Valid() && nextChar < |target|
      modifies `nextChar
      ensures Valid() && nextChar == old(nextChar) + 1 && Raw() == old(Behind())
    {
      nextChar := nextChar + 1;
    }

    /** The next normalised unit, without passing it. */
    method PeekChar() returns (ok: bool, c: Unit)
      requires Valid()
      modifies this, sourceBuffer
      ensures Valid() && ToCome() == old(ToCome())
      ensures ok <==> ToCome() != []
      ensures ok ==> c == ToCome()[0] && nextChar < |target|
      ensures ok ==> ToCome() == [c] + Stream(target[nextChar], Behind())
    {
      hide BytesKept, Stream, Raw;
      c := 0;
      while !eof
        invariant Valid() && ToCome() == old(ToCome())
        decreases !eof, !flush, |unread|, BytesLeft()
      {
        ok, c := PeekAtHand();
        if ok {
          return true, c;
        }
        if !flush {
          ReadChunk();
        } else {
          eof := true;
        }
      }
      NothingAhead();
      return false, c;
    }

    /** The next normalised unit, passed. */
    method GetChar() returns (ok: bool, c: Unit)
      requires Valid()
      modifies this, sourceBuffer
      ensures Valid()
      ensures if old(ToCome()) == [] then !ok && ToCome() == []
              else ok && c == old(ToCome())[0] && ToCome() == old(ToCome())[1..]
    {
      hide BytesKept, Stream, Raw;
      ok, c := PeekChar();
      if ok {
        lastChar := target[nextChar];
        Pass();
      }
    }

    /** The conversion to a string: everything, normalised, however the text was cut into chunks. */
    method ReadAll() returns (text: seq<Unit>)
      requires Valid()
      modifies this, sourceBuffer
      ensures Valid() && text == old(ToCome()) && ToCome() == []
    {
      text := [];
      var ok, c := GetChar();
      while ok
        invariant Valid()
        invariant ok ==> text + [c] + ToCome() == old(ToCome())
        invariant !ok ==> text == old(ToCome()) && ToCome() == []
        decreases ok, |ToCome()|
      {
        text := text + [c];
        ghost var left := ToCome();
        ok, c := GetChar();
      }
    }
  }

  /** A whole stream, from bytes to normalised text. */
  method ReadText(input: seq<Octet>, decode: seq<Octet> -> seq<Unit>, encodingGiven: bool) returns (text: seq<Unit>)
    ensures text == Normal(decode(input))
  {
    var s := new U16InputStream(input, decode, encodingGiven);
    text := s.ReadAll();
  }
}
