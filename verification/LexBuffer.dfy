/** The re-seekable input buffer of the lexer: one window over a file that can tell its position, or as many blocks as
    the loops in progress need. */
module LexBuffer {

  const BUFSIZ := 1024

  type Byte = b: int | 0 <= b < 0x100

  /** An open input: all that will ever be read from it, and how far reading has got. */
  class Device {
    const stream: seq<Byte>
    var pos: nat
    /** How often `read` has given nothing. */
    ghost var refusals: nat

    constructor (s: seq<Byte>)
      ensures stream == s && pos == 0 && refusals == 0
    {
      stream, pos, refusals := s, 0, 0;
    }

    /** `read`: some of what is next, as much as it likes up to `room`, or 0 at the end, or -1. */
    method Read(room: nat) returns (c: int, data: seq<Byte>)
      requires pos <= |stream|
      modifies this
      ensures -1 <= c <= room && pos == old(pos) + |data| <= |stream| && |data| == (if c > 0 then c else 0)
      ensures data == stream[old(pos)..pos] && refusals == old(refusals) + if c > 0 then 0 else 1
    {
      c :| -1 <= c <= room && pos + c <= |stream|;
      data := if c > 0 then stream[pos..pos + c] else [];
      pos := pos + |data|;
      if c <= 0 {
        refusals := refusals + 1;
      }
    }
  }

  /** `struct Bin`. */
  class Bin {
    const dev: Device
    var cantell: bool
    var fseekp: nat
    var fbobp: nat
    var feobp: nat
    var fbuf: seq<array<Byte>>
    /** How many characters have been forgotten. */
    ghost var base: nat

    ghost predicate Blocks()
      reads this, fbuf
    {
      && (forall i :: 0 <= i < |fbuf| ==> fbuf[i].Length == BUFSIZ)
      && (forall i, j :: 0 <= i < j < |fbuf| ==> fbuf[i] != fbuf[j])
    }

    /** The window of a file that can tell. */
    ghost predicate Window()
      reads this, dev, fbuf
    {
      && |fbuf| == 1 && fbuf[0].Length == BUFSIZ && base == 0 && fseekp <= |dev.stream|
      && fbobp <= feobp <= |dev.stream| && feobp <= fbobp + BUFSIZ && dev.pos == feobp
      && (forall o :: 0 <= o < feobp - fbobp ==> fbuf[0][o] == dev.stream[fbobp + o])
    }

    /** The blocks of any other input: all that has been read and not been forgotten. */
    ghost predicate Kept()
      reads this, dev, fbuf
    {
      && Blocks() && fseekp <= feobp <= |fbuf| * BUFSIZ && base + feobp == dev.pos <= |dev.stream|
      && (forall b, o :: 0 <= b < |fbuf| && 0 <= o < BUFSIZ && b * BUFSIZ + o < feobp ==>
            fbuf[b][o] == dev.stream[base + b * BUFSIZ + o])
    }

    ghost predicate Valid()
      reads this, dev, fbuf
    {
      if cantell then Window() else Kept()
    }

    /** The place in the stream that is read next. */
    ghost function Place(): nat
      reads this
    {
      base + fseekp
    }

    /** `settell`: whether the input can tell decides how it is buffered. */
    constructor (d: Device, tells: bool)
      requires d.pos <= |d.stream|
      ensures Valid() && dev == d && cantell == tells && Place() == d.pos && fresh(fbuf)
    {
      dev, cantell := d, tells;
      if tells {
        var block := new Byte[BUFSIZ];
        fbuf := [block];
        fseekp, fbobp, feobp, base := d.pos, d.pos, d.pos, 0;
      } else {
        fbuf := [];
        fseekp, fbobp, feobp, base := 0, 0, 0, d.pos;
      }
    }

    /** Copies what has been read into a block. */
    static method Store(block: array<Byte>, off: nat, data: seq<Byte>)
      requires off + |data| <= block.Length
      modifies block
      ensures forall k :: 0 <= k < block.Length ==>
                block[k] == if off <= k < off + |data| then data[k - off] else old(block[k])
    {
      var i := 0;
      while i < |data|
        invariant i <= |data|
        invariant forall k :: 0 <= k < block.Length ==>
                    block[k] == if off <= k < off + i then data[k - off] else old(block[k])
      {
        block[off + i] := data[i];
        i := i + 1;
      }
    }

    /** What reading one character promises: the one at the current place, or, if the input has refused a read, none and
        no change of place. */
    twostate predicate Gave(c: int)
      reads this, dev
    {
      if dev.refusals == old(dev.refusals)
      then Place() == old(Place()) + 1 && old(Place()) < |dev.stream| && c == dev.stream[old(Place())]
      else dev.refusals == old(dev.refusals) + 1 && c == -1 && Place() == old(Place())
    }

    /** More of the file into the window, which now starts at its end. */
    method Refill() returns (more: bool)
      requires cantell && Window() && fseekp == feobp
      modifies this`fbobp, this`feobp, dev, fbuf
      ensures Window() && fbobp == fseekp && (more ==> fseekp < feobp)
      ensures dev.refusals == old(dev.refusals) + if more then 0 else 1
    {
      fbobp := feobp;
      var c, data := dev.Read(BUFSIZ);
      if c <= 0 {
        return false;
      }
      Store(fbuf[0], 0, data);
      feobp := feobp + c;
      return true;
    }

    /** `bgetc` on an input that can tell. */
    method TellGetc() returns (c: int)
      requires cantell && Window()
      modifies this`fseekp, this`fbobp, this`feobp, dev, fbuf
      ensures Window() && Gave(c) && (old(fbobp) <= old(fseekp) < old(feobp) ==> c >= 0)
    {
      if fseekp < fbobp || fseekp > feobp {
        fbobp, feobp := fseekp, fseekp;
        dev.pos := fseekp;
      }
      if fseekp == feobp {
        var more := Refill();
        if !more {
          return -1;
        }
      }
      c := fbuf[0][fseekp - fbobp];
      fseekp := fseekp + 1;
    }

    /** One block more. */
    method AddBlock()
      requires !cantell && Kept()
      modifies this`fbuf
      ensures Kept() && |fbuf| == |old(fbuf)| + 1 && old(fbuf) == fbuf[..|old(fbuf)|] && fresh(fbuf[|old(fbuf)|])
    {
      var block := new Byte[BUFSIZ];
      fbuf := fbuf + [block];
    }

    /** A read into the block where the buffered text ends. */
    method Extend() returns (more: bool)
      requires !cantell && Kept() && feobp < |fbuf| * BUFSIZ
      modifies this`feobp, dev, fbuf
      ensures Kept() && (if more then old(feobp) < feobp else feobp == old(feobp))
      ensures dev.refusals == old(dev.refusals) + if more then 0 else 1
    {
      var buf, off := feobp / BUFSIZ, feobp % BUFSIZ;
      var roomleft := BUFSIZ - off;
      var c, data := dev.Read(roomleft);
      if c <= 0 {
        return false;
      }
      Store(fbuf[buf], off, data);
      feobp := feobp + c;
      return true;
    }

    /** The character under the seek pointer. */
    lemma {:induction false} Here()
      requires !cantell && Kept() && fseekp < feobp
      ensures fseekp / BUFSIZ < |fbuf| && Place() < |dev.stream|
      ensures fbuf[fseekp / BUFSIZ].Length == BUFSIZ && fbuf[fseekp / BUFSIZ][fseekp % BUFSIZ] == dev.stream[Place()]
    {
    }

    /** Room for the character under the seek pointer, and a read if it is not there yet. */
    method Fetch() returns (more: bool)
      requires !cantell && Kept()
      modifies this`feobp, this`fbuf, dev, fbuf
      ensures Kept() && (more <==> fseekp < feobp) && (old(fseekp) < old(feobp) ==> more) && old(feobp) <= feobp
      ensures dev.refusals == old(dev.refusals) + if more then 0 else 1
      ensures forall i :: 0 <= i < |fbuf| ==> fbuf[i] in old(fbuf) || fresh(fbuf[i])
    {
      if fseekp / BUFSIZ >= |fbuf| {
        AddBlock();
      }
      more := true;
      if fseekp >= feobp {
        more := Extend();
      }
    }

    /** `bgetc` on any other input. What is buffered is never refused. */
    method BlockGetc() returns (c: int)
      requires !cantell && Kept()
      modifies this`fseekp, this`feobp, this`fbuf, dev, fbuf
      ensures Kept() && Gave(c) && (old(fseekp) < old(feobp) ==> c >= 0) && old(feobp) <= feobp
      ensures forall i :: 0 <= i < |fbuf| ==> fbuf[i] in old(fbuf) || fresh(fbuf[i])
    {
      var more := Fetch();
      if !more {
        return -1;
      }
      Here();
      c := fbuf[fseekp / BUFSIZ][fseekp % BUFSIZ];
      fseekp := fseekp + 1;
    }

    /** `bgetc`: the character of the stream at the current place. */
    method Bgetc() returns (c: int)
      requires Valid()
      modifies this`fseekp, this`fbobp, this`feobp, this`fbuf, dev, fbuf
      ensures Valid() && Gave(c) && (!cantell ==> old(feobp) <= feobp)
      ensures (cantell ==> old(fbobp) <= old(fseekp)) && old(fseekp) < old(feobp) ==> c >= 0
      ensures forall i :: 0 <= i < |fbuf| ==> fbuf[i] in old(fbuf) || fresh(fbuf[i])
    {
      if cantell {
        c := TellGetc();
      } else {
        c := BlockGetc();
      }
    }

    /** `bfree`: forgets the blocks before the one last read from, unless a loop may come back to them. What is read
        next stays the same. */
    method Bfree(whyles: bool)
      requires Valid()
      modifies this`fseekp, this`feobp, this`fbuf, this`base
      ensures Valid() && Place() == old(Place()) && base + feobp == old(base + feobp)
      ensures cantell || whyles ==> fbuf == old(fbuf) && fseekp == old(fseekp)
      ensures !cantell && !whyles ==> fseekp <= BUFSIZ
      ensures |fbuf| <= |old(fbuf)| && fbuf == old(fbuf)[|old(fbuf)| - |fbuf|..]
    {
      if cantell || whyles {
        return;
      }
      var sb := if fseekp == 0 then 0 else (fseekp - 1) / BUFSIZ;
      if sb > 0 {
        fbuf := fbuf[sb..];
        fseekp := fseekp - BUFSIZ * sb;
        feobp := feobp - BUFSIZ * sb;
        base := base + BUFSIZ * sb;
      }
    }

    /** A position that can be sought: one in the file, or one in what is kept. */
    ghost predicate Told(p: nat)
      reads this, dev
    {
      if cantell then p <= |dev.stream| else p <= feobp
    }

    /** `btell`. */
    method Btell() returns (p: nat)
      requires Valid()
      ensures Told(p) && base + p == Place()
    {
      p := fseekp;
    }

    /** `bseek`. */
    method Bseek(p: nat)
      requires Valid() && Told(p)
      modifies this`fseekp
      ensures Valid() && Place() == base + p
    {
      fseekp := p;
    }

    /** Up to `n` characters, as long as there are any. */
    method Take(n: nat) returns (text: seq<Byte>)
      requires Valid()
      modifies this`fseekp, this`fbobp, this`feobp, this`fbuf, dev, fbuf
      ensures Valid() && |text| <= n && Place() == old(Place()) + |text| <= |dev.stream|
      ensures text == dev.stream[old(Place())..Place()] && (!cantell ==> old(feobp) <= feobp)
      ensures |text| == n <==> dev.refusals == old(dev.refusals)
      ensures !cantell && old(fseekp) + n <= old(feobp) ==> |text| == n
      ensures forall i :: 0 <= i < |fbuf| ==> fbuf[i] in old(fbuf) || fresh(fbuf[i])
    {
      text := [];
      while |text| < n
        invariant Valid() && |text| <= n && Place() == old(Place()) + |text| <= |dev.stream|
        invariant text == dev.stream[old(Place())..Place()] && (!cantell ==> old(feobp) <= feobp)
        invariant dev.refusals == old(dev.refusals)
        invariant forall i :: 0 <= i < |fbuf| ==> fbuf[i] in old(fbuf) || fresh(fbuf[i])
      {
        var c := Bgetc();
        if c < 0 {
          return;
        }
        text := text + [c];
      }
    }

    /** A loop: whatever is read after a told position is read again after seeking back to it, all of it unless the
        input refuses to give it again; what is kept in blocks needs no input. */
    method Replay(n: nat) returns (first: seq<Byte>, second: seq<Byte>, ghost refused: bool)
      requires Valid()
      modifies this`fseekp, this`fbobp, this`feobp, this`fbuf, dev, fbuf
      ensures Valid() && second <= first && (second == first <==> !refused) && (refused ==> cantell)
      ensures |first| <= n && old(Place()) + |first| <= |dev.stream|
      ensures first == dev.stream[old(Place())..old(Place()) + |first|]
    {
      var start := Btell();
      first := Take(n);
      Bseek(start);
      ghost var before := dev.refusals;
      second := Take(|first|);
      refused := dev.refusals != before;
    }

    /** Any run of moves reads what the plain stream, a place in it and a list of marked places would give. */
    method Drive(moves: seq<Move>, marks: seq<nat>, ghost places: seq<nat>) returns (outs: seq<int>)
      requires Valid() && |marks| == |places| && forall k :: 0 <= k < |marks| ==>
        Told(marks[k]) && base + marks[k] == places[k]
      modifies this`fseekp, this`fbobp, this`feobp, this`fbuf, this`base, dev, fbuf
      ensures Valid() && dev.refusals >= old(dev.refusals)
      ensures Follows(dev.stream, old(Place()), places, moves, outs, dev.refusals - old(dev.refusals))
      decreases |moves|
    {
      hide Bin.Window, Bin.Kept;
      if moves == [] {
        return [];
      }
      match moves[0] {
        case Get =>
          var c := Bgetc();
          var more := Drive(moves[1..], marks, places);
          outs := [c] + more;
          assert outs[1..] == more;
        case Mark =>
          var p := Btell();
          outs := Drive(moves[1..], marks + [p], places + [Place()]);
        case Back(k) =>
          if k < |marks| {
            Bseek(marks[k]);
          }
          outs := Drive(moves[1..], marks, places);
        case Free(whyles) =>
          Bfree(whyles);
          outs := Drive(moves[1..], if whyles then marks else [], if whyles then places else []);
      }
    }
  }

  /** Read a character, remember the place, go back to a remembered place, or free what no loop needs; outside loops
      nothing stays remembered. */
  datatype Move = Get | Mark | Back(k: nat) | Free(whyles: bool)

  /** What the moves give on the plain stream, of which the input has refused to give something `refused` times. */
  ghost predicate Follows(stream: seq<Byte>, place: nat, marks: seq<nat>, moves: seq<Move>, outs: seq<int>,
                          refused: nat)
    decreases |moves|
  {
    if moves == [] then outs == [] && refused == 0
    else match moves[0]
      case Get =>
        && outs != [] && (if outs[0] == -1 then refused > 0 else place < |stream| && outs[0] == stream[place])
        && Follows(stream, if outs[0] == -1 then place else place + 1, marks, moves[1..], outs[1..],
                   if outs[0] == -1 then refused - 1 else refused)
      case Mark => Follows(stream, place, marks + [place], moves[1..], outs, refused)
      case Back(k) => Follows(stream, if k < |marks| then marks[k] else place, marks, moves[1..], outs, refused)
      case Free(whyles) => Follows(stream, place, if whyles then marks else [], moves[1..], outs, refused)
  }
}
