/** What a tree says of its line: written out from left to right, its arguments, connectives, redirections and
    background marks are those that a plain reader of the line meets, by their characters and in that order. */
module Spelling {
  import opened Words
  import opened Grammar
  import Phrases

  datatype Mark =
    | Arg(word: Word) | End(io: Io) | AndMark | OrMark | PipeMark | BothMark | BackMark | QuietMark

  const NOIO := Io(None, None, {})

  // The tree, written out

  function Args(av: seq<Word>): (s: seq<Mark>)
    ensures |s| == |av| && forall i :: 0 <= i < |av| ==> s[i] == Arg(av[i])
  {
    seq(|av|, i requires 0 <= i < |av| => Arg(av[i]))
  }

  /** The redirections, apart from the marks of the background. */
  function Own(io: Io): Io
  {
    io.(flags := io.flags - {Ampersand, NoInterrupt})
  }

  function Behind(flags: set<Flag>): seq<Mark>
  {
    (if Ampersand in flags then [BackMark] else []) + if NoInterrupt in flags then [QuietMark] else []
  }

  /** A command ends with its redirections; a subshell only if it has any. */
  function Written(t: Tree): seq<Mark>
  {
    match t
    case Null => []
    case Command(av, io) => Args(av) + [End(Own(io))] + Behind(io.flags)
    case Paren(body, io) => Written(body) + (if Own(io) == NOIO then [] else [End(Own(io))]) + Behind(io.flags)
    case Pipe(car, cdr, flags) =>
      Written(car) + [PipeMark] + (if Stderr in flags then [BothMark] else []) + Written(cdr) + Behind(flags)
    case And(car, cdr) => Written(car) + [AndMark] + Written(cdr)
    case Or(car, cdr) => Written(car) + [OrMark] + Written(cdr)
    case List(car, cdr) => Written(car) + Written(cdr)
  }

  // The line, read

  predicate Starts(w: Word, c: char)
  {
    At(w, 0) == c as int
  }

  predicate Doubled(w: Word)
  {
    At(w, 1) == At(w, 0)
  }

  /** Where the reader is; whether the last word was a lone bar; whether there is anything before the next `&`, and
      before the next separator; whether that is a subshell; whether the file name to come is that of an output; the
      redirections so far, and those of the commands about the open subshells. */
  datatype Reader = Reader(m: Phrases.Mode, bar: bool, part: bool, piece: bool, group: bool, out: bool, io: Io,
                           stack: seq<Io>)

  function Begin(part: bool, stack: seq<Io>): Reader
  {
    Reader(Phrases.Fresh, false, part, false, false, false, NOIO, stack)
  }

  /** A word of a command. */
  function Inside(r: Reader, m: Phrases.Mode): Reader
  {
    r.(m := m, bar := false, part := true, piece := true)
  }

  function More(io: Io, flag: Flag): Io
  {
    io.(flags := io.flags + {flag})
  }

  function Shift(r: Reader, w: Word): Reader
  {
    var m := Phrases.Next(r.m, w);
    if r.m.Deep? then Inside(r, m)
    else if r.m.Name? then
      if m.Name? then Inside(r, m).(io := More(r.io, if Starts(w, '&') then Stderr else Overwrite))
      else Inside(r, m).(io := if r.out then r.io.(rit := Some(w)) else r.io.(lef := Some(w)))
    else if Starts(w, '|') then Begin(r.part, r.stack).(bar := !Doubled(w))
    else if Starts(w, '&') then
      if r.bar && Is(w, "&") then r.(m := m, bar := false)
      else Begin(r.part && Doubled(w), r.stack)
    else if Starts(w, ';') || Starts(w, '\n') then Begin(r.part, r.stack)
    else if Starts(w, '(') then if m.Deep? then Inside(r, m) else Begin(false, [r.io] + r.stack)
    else if Starts(w, ')') && r.stack != [] then
      Reader(m, false, true, true, true, false, r.stack[0], r.stack[1..])
    else if Starts(w, '<') then Inside(r, m).(out := false, io := if Doubled(w) then More(r.io, ReadHere) else r.io)
    else if Starts(w, '>') then Inside(r, m).(out := true, io := if Doubled(w) then More(r.io, Append) else r.io)
    else Inside(r, m)
  }

  /** The end of the command that the reader is in, if it is in one; before a closing parenthesis it need not fork. */
  function Flush(r: Reader, close: bool): seq<Mark>
  {
    var io := if close then More(r.io, NoFork) else r.io;
    if !r.piece || (r.group && io == NOIO) then [] else [End(io)]
  }

  function Emit(r: Reader, w: Word): seq<Mark>
  {
    if r.m.Deep? then [Arg(w)]
    else if r.m.Name? then []
    else if Starts(w, '|') then Flush(r, false) + [if Doubled(w) then OrMark else PipeMark]
    else if Starts(w, '&') then
      if r.bar && Is(w, "&") then [BothMark]
      else if Doubled(w) then if r.piece then Flush(r, false) + [AndMark] else []
      else if r.part then Flush(r, false) + [BackMark, QuietMark] else []
    else if Starts(w, ';') || Starts(w, '\n') then Flush(r, false)
    else if Starts(w, '(') then if Phrases.Next(r.m, w).Deep? then [Arg(w)] else []
    else if Starts(w, ')') then Flush(r, true)
    else if Starts(w, '<') || Starts(w, '>') then []
    else [Arg(w)]
  }

  function ReadTo(ws: Line, i: nat, k: nat, r: Reader): Reader
    requires i <= k <= |ws|
    decreases k
  {
    if k == i then r else Shift(ReadTo(ws, i, k - 1, r), ws[k - 1])
  }

  function Marks(ws: Line, i: nat, k: nat, r: Reader): seq<Mark>
    requires i <= k <= |ws|
    decreases k
  {
    if k == i then [] else Marks(ws, i, k - 1, r) + Emit(ReadTo(ws, i, k - 1, r), ws[k - 1])
  }

  /** All that is read of a line. */
  function Whole(ws: Line): seq<Mark>
  {
    Marks(ws, 0, |ws|, Begin(false, [])) + Flush(ReadTo(ws, 0, |ws|, Begin(false, [])), false)
  }

  /** The kinds of words, by their characters. */
  lemma {:induction false} KindChars(w: Word)
    ensures KindOf(w).Open? <==> Starts(w, '(')
    ensures KindOf(w).Close? <==> Starts(w, ')')
    ensures KindOf(w).Less? <==> Starts(w, '<')
    ensures KindOf(w).Greater? <==> Starts(w, '>')
    ensures KindOf(w).AndAnd? <==> Starts(w, '&') && Doubled(w)
    ensures KindOf(w).Amp? <==> Starts(w, '&') && !Doubled(w)
    ensures KindOf(w).OrOr? <==> Starts(w, '|') && Doubled(w)
    ensures KindOf(w).Bar? <==> Starts(w, '|') && !Doubled(w)
    ensures KindOf(w).Semi? <==> Starts(w, ';') || Starts(w, '\n')
  {
  }

  lemma {:induction false} Split(ws: Line, i: nat, k: nat, j: nat, r: Reader)
    requires i <= k <= j <= |ws|
    ensures ReadTo(ws, i, j, r) == ReadTo(ws, k, j, ReadTo(ws, i, k, r))
    ensures Marks(ws, i, j, r) == Marks(ws, i, k, r) + Marks(ws, k, j, ReadTo(ws, i, k, r))
    decreases j
  {
    hide Shift, Emit;
    if k < j {
      Split(ws, i, k, j - 1, r);
    }
  }

  /** One word from the left. */
  lemma {:induction false} OneWord(ws: Line, i: nat, j: nat, r: Reader)
    requires i < j <= |ws|
    ensures ReadTo(ws, i, j, r) == ReadTo(ws, i + 1, j, Shift(r, ws[i]))
    ensures Marks(ws, i, j, r) == Emit(r, ws[i]) + Marks(ws, i + 1, j, Shift(r, ws[i]))
  {
    hide Shift, Emit;
    Split(ws, i, i + 1, j, r);
    assert ReadTo(ws, i, i, r) == r && Marks(ws, i, i, r) == [];
    assert ReadTo(ws, i, i + 1, r) == Shift(r, ws[i]) && Marks(ws, i, i + 1, r) == [] + Emit(r, ws[i]);
  }

  lemma {:induction false} Nothing(ws: Line, k: nat)
    requires k <= |ws|
    ensures forall r :: ReadTo(ws, k, k, r) == r && Marks(ws, k, k, r) == []
  {
  }

  lemma {:induction false} ShiftMode(r: Reader, w: Word)
    ensures Shift(r, w).m == Phrases.Next(r.m, w)
  {
    hide KindOf, Is, Keyword, Starts, Doubled;
    KindChars(w);
  }

  lemma {:induction false} ReadMode(ws: Line, i: nat, k: nat, r: Reader)
    requires i <= k <= |ws|
    ensures ReadTo(ws, i, k, r).m == Phrases.ModeAt(ws, i, k, r.m)
    decreases k
  {
    hide Shift, Phrases.Next;
    if i < k {
      ReadMode(ws, i, k - 1, r);
      ShiftMode(ReadTo(ws, i, k - 1, r), ws[k - 1]);
    }
  }

  // Simple commands

  /** What the reader has gathered is what the clause has, but for the mark of a last command. */
  ghost predicate Agree(r: Reader, leaf: Leaf)
  {
    && r.io.lef == leaf.io.lef && r.io.rit == leaf.io.rit && r.io.flags == leaf.io.flags - {NoFork}
    && (r.group <==> leaf.group.Some?)
  }

  /** The words of a subshell, whatever stands about it, are read as its tree is written. */
  ghost predicate GroupRead(ws: Line, lp: nat, rp: nat, body: Tree)
  {
    && lp <= rp <= |ws|
    && forall stack :: var b := Begin(false, stack); var e := ReadTo(ws, lp, rp, b);
         Marks(ws, lp, rp, b) + Flush(e, true) == Written(body) && e.stack == stack && Phrases.Settled(e.m)
  }

  /** After an item the reader stands in the command. */
  ghost predicate Stays(r: Reader, e: Reader)
  {
    e.stack == r.stack && !e.bar && e.part && e.piece
  }

  lemma {:induction false} InputRead(ws: Line, i: nat, j: nat, c: Context, special: bool, leaf: Leaf, r: Reader)
    requires i < j <= |ws| && KindOf(ws[i]).Less? && i < ItemEnd(ws, i, j) && Phrases.Settled(r.m)
    requires Take(ws, i, j, c, special, leaf).Some? && Agree(r, leaf)
    ensures var e := ReadTo(ws, i, ItemEnd(ws, i, j), r);
      Stays(r, e) && Agree(e, Take(ws, i, j, c, special, leaf).value) && Marks(ws, i, ItemEnd(ws, i, j), r) == []
  {
    hide KindOf, Is, Keyword, ReadTo, Marks;
    KindChars(ws[i]);
    OneWord(ws, i, i + 2, r);
    OneWord(ws, i + 1, i + 2, Shift(r, ws[i]));
    KindChars(ws[i + 1]);
    Nothing(ws, i + 2);
  }

  lemma {:induction false} GreaterStep(r: Reader, w: Word)
    requires KindOf(w).Greater? && Phrases.Settled(r.m)
    ensures Emit(r, w) == []
    ensures var special := r.m.Body? && r.m.special;
      Shift(r, w) == Inside(r, Phrases.Name(special, 0)).
        (out := true, io := if At(w, 1) == '>' as int then More(r.io, Append) else r.io)
  {
    KindChars(w);
  }

  /** A modifier or the file name itself. */
  lemma {:induction false} NameStep(r: Reader, w: Word)
    requires r.m.Name? && r.out
    ensures Emit(r, w) == []
    ensures Shift(r, w) ==
      if r.m.stage == 0 && Is(w, "&") then Inside(r, Phrases.Name(r.m.special, 1)).(io := More(r.io, Stderr))
      else if r.m.stage <= 1 && Is(w, "!") then Inside(r, Phrases.Name(r.m.special, 2)).(io := More(r.io, Overwrite))
      else Inside(r, Phrases.Body(r.m.special)).(io := r.io.(rit := Some(w)))
  {
    Modifier(w);
  }

  lemma {:induction false} Modifier(w: Word)
    ensures Is(w, "&") ==> Starts(w, '&')
    ensures Is(w, "!") ==> !Starts(w, '&') && KindOf(w).Plain?
    ensures !(Is(w, "&") && Is(w, "!"))
  {
    FixedWords(w);
  }

  /** From behind a `>` to behind its file name: the modifiers are marked, and the name taken. */
  lemma {:induction false} NameRead(ws: Line, i: nat, j: nat, r: Reader)
    requires i < j <= |ws| && KindOf(ws[i]).Greater? && i < ItemEnd(ws, i, j)
    requires r.m.Name? && r.m.stage == 0 && r.out
    ensures var k, both := ItemEnd(ws, i, j), Is(ws[i + 1], "&");
      var io := if both then More(r.io, Stderr) else r.io;
      var io' := if Modifiers(ws, i, j) == (if both then 2 else 1) then More(io, Overwrite) else io;
      && i + 1 < k && Marks(ws, i + 1, k, r) == []
      && ReadTo(ws, i + 1, k, r) == Inside(r, Phrases.Body(r.m.special)).(io := io'.(rit := Some(ws[k - 1])))
  {
    hide KindOf, Is, Keyword, ReadTo, Marks, Shift, Emit, More;
    var k := ItemEnd(ws, i, j);
    OneWord(ws, i + 1, k, r);
    NameStep(r, ws[i + 1]);
    Modifier(ws[i + 1]);
    Nothing(ws, k);
    if i + 2 < k {
      var r2 := Shift(r, ws[i + 1]);
      Modifier(ws[i + 2]);
      OneWord(ws, i + 2, k, r2);
      NameStep(r2, ws[i + 2]);
      if i + 3 < k {
        var r3 := Shift(r2, ws[i + 2]);
        OneWord(ws, i + 3, k, r3);
        NameStep(r3, ws[i + 3]);
      }
    }
  }

  lemma {:induction false} OutputRead(ws: Line, i: nat, j: nat, c: Context, special: bool, leaf: Leaf, r: Reader)
    requires i < j <= |ws| && KindOf(ws[i]).Greater? && i < ItemEnd(ws, i, j) && Phrases.Settled(r.m)
    requires Take(ws, i, j, c, special, leaf).Some? && Agree(r, leaf)
    ensures var e := ReadTo(ws, i, ItemEnd(ws, i, j), r);
      Stays(r, e) && Agree(e, Take(ws, i, j, c, special, leaf).value) && Marks(ws, i, ItemEnd(ws, i, j), r) == []
  {
    hide KindOf, Is, Keyword, ReadTo, Marks, Shift, Emit, Modifiers, ItemEnd;
    OneWord(ws, i, ItemEnd(ws, i, j), r);
    GreaterStep(r, ws[i]);
    NameRead(ws, i, j, Shift(r, ws[i]));
  }

  lemma {:induction false} ArgsJoin(a: seq<Word>, b: seq<Word>)
    ensures Args(a + b) == Args(a) + Args(b)
  {
  }

  lemma {:induction false} DeepStep(r: Reader, w: Word)
    requires r.m.Deep? && r.m.depth >= 1
    ensures Emit(r, w) == Args([w])
    ensures var d := r.m.depth + Delta(w);
      Shift(r, w) == Inside(r, if d == 0 then Phrases.Body(true) else Phrases.Deep(d))
  {
  }

  /** Inside the parentheses of a special command every word is an argument. */
  lemma {:induction false} DeepRead(ws: Line, i: nat, j: nat, d: nat, r: Reader)
    requires i <= j <= |ws| && d >= 1 && r.m == Phrases.Deep(d)
    ensures var k := Closing(ws, i, j, d);
      k <= j ==> ReadTo(ws, i, k, r) == Inside(r, Phrases.Body(true)) && Marks(ws, i, k, r) == Args(ws[i..k])
    decreases j - i
  {
    hide KindOf, Is, Keyword, ReadTo, Marks, Shift, Emit, Args;
    var k := Closing(ws, i, j, d);
    if i < j && k <= j {
      OneWord(ws, i, k, r);
      DeepStep(r, ws[i]);
      Nothing(ws, k);
      assert ws[i..k] == [ws[i]] + ws[i + 1..k];
      ArgsJoin([ws[i]], ws[i + 1..k]);
      if !(KindOf(ws[i]).Close? && d <= 1) {
        DeepRead(ws, i + 1, j, d + Delta(ws[i]), Shift(r, ws[i]));
      }
    }
  }

  lemma {:induction false} SpecialRead(ws: Line, i: nat, j: nat, r: Reader)
    requires i < j <= |ws| && KindOf(ws[i]).Open? && i < ItemEnd(ws, i, j) && r.m == Phrases.Body(true)
    ensures var k := ItemEnd(ws, i, j);
      ReadTo(ws, i, k, r) == Inside(r, Phrases.Body(true)) && Marks(ws, i, k, r) == Args(ws[i..k])
  {
    hide KindOf, Is, Keyword, ReadTo, Marks, Closing;
    var k := ItemEnd(ws, i, j);
    KindChars(ws[i]);
    OneWord(ws, i, k, r);
    DeepRead(ws, i + 1, j, 1, Shift(r, ws[i]));
    assert ws[i..k] == [ws[i]] + ws[i + 1..k];
    ArgsJoin([ws[i]], ws[i + 1..k]);
  }

  lemma {:induction false} OpenStep(r: Reader, w: Word)
    requires KindOf(w).Open? && Phrases.Settled(r.m) && r.m != Phrases.Body(true)
    ensures Shift(r, w) == Begin(false, [r.io] + r.stack) && Emit(r, w) == []
  {
    KindChars(w);
  }

  lemma {:induction false} CloseStep(r: Reader, w: Word)
    requires KindOf(w).Close? && Phrases.Settled(r.m) && r.stack != []
    ensures Shift(r, w) == Reader(Phrases.Body(false), false, true, true, true, false, r.stack[0], r.stack[1..])
    ensures Emit(r, w) == Flush(r, true)
  {
    KindChars(w);
  }

  lemma {:induction false} SubshellRead(ws: Line, i: nat, j: nat, r: Reader, body: Tree)
    requires i < j <= |ws| && KindOf(ws[i]).Open? && i < ItemEnd(ws, i, j)
    requires Phrases.Settled(r.m) && r.m != Phrases.Body(true) && GroupRead(ws, i + 1, ItemEnd(ws, i, j) - 1, body)
    ensures var k := ItemEnd(ws, i, j);
      && ReadTo(ws, i, k, r) == Reader(Phrases.Body(false), false, true, true, true, false, r.io, r.stack)
      && Marks(ws, i, k, r) == Written(body)
  {
    hide KindOf, Is, Keyword, ReadTo, Marks, Closing, Shift, Emit, Flush, Written;
    var k, b := ItemEnd(ws, i, j), Begin(false, [r.io] + r.stack);
    OneWord(ws, i, k, r);
    OpenStep(r, ws[i]);
    Split(ws, i + 1, k - 1, k, b);
    var e := ReadTo(ws, i + 1, k - 1, b);
    OneWord(ws, k - 1, k, e);
    CloseStep(e, ws[k - 1]);
    Nothing(ws, k);
  }

  lemma {:induction false} PlainStep(r: Reader, w: Word)
    requires KindOf(w).Plain? && Phrases.Settled(r.m)
    ensures Shift(r, w) == Inside(r, Phrases.Next(r.m, w)) && Emit(r, w) == [Arg(w)]
  {
    KindChars(w);
  }

  /** An item of a command. */
  lemma {:induction false} ItemRead(ws: Line, i: nat, j: nat, c: Context, special: bool, leaf: Leaf, r: Reader,
                                    body: Tree)
    requires i < j <= |ws| && i < ItemEnd(ws, i, j) && Take(ws, i, j, c, special, leaf).Some? && Agree(r, leaf)
    requires Phrases.Fits(ws, i, j, special, r.m)
    requires KindOf(ws[i]).Open? && !special ==> GroupRead(ws, i + 1, ItemEnd(ws, i, j) - 1, body)
    ensures var k, more := ItemEnd(ws, i, j), Take(ws, i, j, c, special, leaf).value;
      && Stays(r, ReadTo(ws, i, k, r)) && Agree(ReadTo(ws, i, k, r), more)
      && leaf.av <= more.av && Marks(ws, i, k, r) ==
        (if KindOf(ws[i]).Open? && !special then Written(body) else Args(more.av[|leaf.av|..]))
  {
    hide KindOf, Is, Keyword, ReadTo, Marks, Shift, Emit, Closing, Modifiers, TakeInput, TakeOutput, Written;
    if KindOf(ws[i]).Open? {
      if special {
        FixedWords(ws[i]);
        SpecialRead(ws, i, j, r);
      } else {
        SubshellRead(ws, i, j, r, body);
      }
    } else if KindOf(ws[i]).Less? {
      InputRead(ws, i, j, c, special, leaf, r);
    } else if KindOf(ws[i]).Greater? {
      OutputRead(ws, i, j, c, special, leaf, r);
    } else {
      OneWord(ws, i, i + 1, r);
      PlainStep(r, ws[i]);
      Nothing(ws, i + 1);
      assert Args([ws[i]]) == [Arg(ws[i])];
    }
  }

  /** A group that is taken from here on is the one there is in the end. */
  ghost predicate Enclosed(ws: Line, special: bool, out: Leaf, body: Tree)
  {
    out.group.Some? ==>
      out.av == [] && !special && GroupRead(ws, out.group.value.0, out.group.value.1, body)
  }

  lemma {:induction false} ItemFits(ws: Line, i: nat, j: nat, special: bool, r: Reader, body: Tree)
    requires i < j <= |ws| && i < ItemEnd(ws, i, j) && Phrases.Fits(ws, i, j, special, r.m)
    requires KindOf(ws[i]).Open? && !special ==> GroupRead(ws, i + 1, ItemEnd(ws, i, j) - 1, body)
    ensures Phrases.Fits(ws, ItemEnd(ws, i, j), j, special, ReadTo(ws, i, ItemEnd(ws, i, j), r).m)
  {
    hide KindOf, ReadTo, Marks, ItemEnd, Written, Phrases.ModeAt, Phrases.Ordinary, Special;
    var k := ItemEnd(ws, i, j);
    if KindOf(ws[i]).Open? && !special {
      var b := Begin(false, []);
      ReadMode(ws, i + 1, k - 1, b);
    }
    Phrases.ItemWords(ws, i, j, special, r.m);
    ReadMode(ws, i, k, r);
  }

  /** The items of a command: its words are read as arguments, a subshell as its tree, and the redirections gathered. */
  lemma {:induction false} ClauseRead(ws: Line, i: nat, j: nat, c: Context, special: bool, leaf: Leaf, r: Reader,
                                      body: Tree)
    requires i <= j <= |ws| && Clause(ws, i, j, c, special, leaf).Some? && Phrases.Fits(ws, i, j, special, r.m)
    requires Agree(r, leaf) && (special ==> leaf.group.None?)
    requires Enclosed(ws, special, Clause(ws, i, j, c, special, leaf).value, body)
    ensures var e, out := ReadTo(ws, i, j, r), Clause(ws, i, j, c, special, leaf).value;
      && Agree(e, out) && Phrases.Settled(e.m) && leaf.av <= out.av && (i < j ==> Stays(r, e)) && (i == j ==> e == r)
      && Marks(ws, i, j, r) ==
           Args(out.av[|leaf.av|..]) + if leaf.group.None? && out.group.Some? then Written(body) else []
    decreases j - i
  {
    hide KindOf, ItemEnd, ReadTo, Marks, Special, Written, GroupRead, Args, Agree, Take;
    Nothing(ws, i);
    if i < j {
      var k := ItemEnd(ws, i, j);
      var more := Take(ws, i, j, c, special, leaf).value;
      Phrases.ClauseGrows(ws, k, j, c, special, more);
      Phrases.TakeAdds(ws, i, j, c, special, leaf);
      OneGroup(ws, i, j, c, special, leaf);
      ItemRead(ws, i, j, c, special, leaf, r, body);
      ItemFits(ws, i, j, special, r, body);
      var e := ReadTo(ws, i, k, r);
      ClauseRead(ws, k, j, c, special, more, e, body);
      Split(ws, i, k, j, r);
      var out := Clause(ws, i, j, c, special, leaf).value;
      ClauseJoin(leaf, more, out, body, Marks(ws, i, k, r), Marks(ws, k, j, e));
    }
  }

  lemma {:induction false} OneGroup(ws: Line, i: nat, j: nat, c: Context, special: bool, leaf: Leaf)
    requires i < j <= |ws| && i < ItemEnd(ws, i, j) && Take(ws, i, j, c, special, leaf).Some?
    ensures KindOf(ws[i]).Open? && !special ==> leaf.group.None?
  {
    hide KindOf, ItemEnd;
  }

  /** What two stretches of a clause give together. */
  lemma {:induction false} ClauseJoin(leaf: Leaf, more: Leaf, out: Leaf, body: Tree, first: seq<Mark>, rest: seq<Mark>)
    requires leaf.av <= more.av <= out.av
    requires rest == Args(out.av[|more.av|..]) + if more.group.None? && out.group.Some? then Written(body) else []
    requires
      || (more.group == leaf.group && first == Args(more.av[|leaf.av|..]))
      || (leaf.group.None? && more.group.Some? && out.group.Some? && out.av == [] && first == Written(body))
    ensures first + rest ==
      Args(out.av[|leaf.av|..]) + if leaf.group.None? && out.group.Some? then Written(body) else []
  {
    hide Written;
    if more.group == leaf.group && first == Args(more.av[|leaf.av|..]) {
      ArgsSplit(leaf.av, more.av, out.av);
    }
  }

  lemma {:induction false} ArgsSplit(a: seq<Word>, b: seq<Word>, c: seq<Word>)
    requires a <= b <= c
    ensures Args(c[|a|..]) == Args(b[|a|..]) + Args(c[|b|..])
  {
    assert c[|a|..] == b[|a|..] + c[|b|..];
  }

  /** No command is marked for the background by its own words, and a subshell ends at a parenthesis. */
  lemma {:induction false} ClauseKeeps(ws: Line, i: nat, j: nat, c: Context, special: bool, leaf: Leaf)
    requires i <= j <= |ws| && Clause(ws, i, j, c, special, leaf).Some?
    ensures var out := Clause(ws, i, j, c, special, leaf).value;
      && (forall f :: f in {Ampersand, NoInterrupt, NoFork} ==> (f in out.io.flags <==> f in leaf.io.flags))
      && (out.group.Some? && out.group != leaf.group ==>
            out.group.value.1 < |ws| && KindOf(ws[out.group.value.1]).Close?)
    decreases j - i
  {
    hide KindOf, Is, Closing, Modifiers;
    if i < j {
      ClauseKeeps(ws, ItemEnd(ws, i, j), j, c, special, Take(ws, i, j, c, special, leaf).value);
    }
  }

  // The theorem, phrase by phrase

  predicate Shut(ws: Line, j: nat)
  {
    j < |ws| && KindOf(ws[j]).Close?
  }

  /** Before a command, with nothing gathered. */
  predicate AtStart(r: Reader)
  {
    r.m == Phrases.Fresh && !r.piece && !r.group && !r.out && r.io == NOIO
  }

  /** What is claimed of a phrase. */
  ghost predicate Spelt(ws: Line, i: nat, j: nat, t: Tree, r: Reader)
    requires i <= j <= |ws|
  {
    var e := ReadTo(ws, i, j, r);
    Marks(ws, i, j, r) + Flush(e, Shut(ws, j)) == Written(t) && e.stack == r.stack && Phrases.Settled(e.m)
  }

  /** The tree is not marked for the background at its top. */
  predicate Unmarked(t: Tree)
  {
    match t
    case Command(_, io) => {Ampersand, NoInterrupt} !! io.flags
    case Paren(_, io) => {Ampersand, NoInterrupt} !! io.flags
    case Pipe(_, _, flags) => {Ampersand, NoInterrupt} !! flags
    case _ => true
  }

  lemma {:induction false} LeafWritten(e: Reader, out: Leaf, close: bool)
    requires Agree(e, out) && e.piece && {Ampersand, NoInterrupt} !! out.io.flags
    requires NoFork in out.io.flags <==> close
    ensures Own(out.io) == out.io && Behind(out.io.flags) == []
    ensures Flush(e, close) == if out.group.Some? && out.io == NOIO then [] else [End(out.io)]
  {
    var io := if close then More(e.io, NoFork) else e.io;
    assert io.flags == out.io.flags;
  }

  /** How a simple command is written. */
  lemma {:induction false} WrittenLeaf(t: Tree, out: Leaf, e: Reader, close: bool)
    requires Agree(e, out) && e.piece && {Ampersand, NoInterrupt} !! out.io.flags
    requires NoFork in out.io.flags <==> close
    requires if out.group.None? then t == Command(out.av, out.io) else out.av == [] && t.Paren? && t.io == out.io
    ensures Written(t) == Args(out.av) + (if out.group.Some? then Written(t.body) else []) + Flush(e, close)
    ensures Unmarked(t)
  {
    hide Flush, Agree, Own, Behind;
    LeafWritten(e, out, close);
  }

  lemma {:induction false} SimpleSpelt(ws: Line, i: nat, j: nat, c: Context, t: Tree, r: Reader)
    requires i <= j <= |ws| && IsSimple(ws, i, j, c, t) && AtStart(r)
    ensures Spelt(ws, i, j, t, r) && Unmarked(t) && Stays(r, ReadTo(ws, i, j, r))
    decreases j - i, 0
  {
    hide KindOf, Clause, IsLine, ReadTo, Marks, Flush, Special, Agree, Written, Args, GroupRead, Unmarked;
    var special, bare := Special(ws, i, j), Bare(ws, j);
    var out := Clause(ws, i, j, c, special, bare).value;
    var body := if t.Paren? then t.body else Null;
    ClauseKeeps(ws, i, j, c, special, bare);
    Phrases.ClauseGrows(ws, i, j, c, special, bare);
    if out.group.Some? {
      BodySpelt(ws, out.group.value.0, out.group.value.1, body);
    }
    BareAgrees(ws, j, r);
    ClauseRead(ws, i, j, c, special, bare, r, body);
    NotNothing(ws, i, j, c, special);
    WrittenLeaf(t, out, ReadTo(ws, i, j, r), Shut(ws, j));
    assert out.av[|bare.av|..] == out.av;
  }

  lemma {:induction false} BareAgrees(ws: Line, j: nat, r: Reader)
    requires j <= |ws| && AtStart(r)
    ensures Agree(r, Bare(ws, j))
  {
  }

  lemma {:induction false} NotNothing(ws: Line, i: nat, j: nat, c: Context, special: bool)
    requires i <= j <= |ws| && Clause(ws, i, j, c, special, Bare(ws, j)).Some?
    requires var out := Clause(ws, i, j, c, special, Bare(ws, j)).value; out.av != [] || out.group.Some?
    ensures i < j
  {
  }

  lemma {:induction false} BodySpelt(ws: Line, lp: nat, rp: nat, body: Tree)
    requires lp <= rp < |ws| && KindOf(ws[rp]).Close? && IsLine(ws, lp, rp, SUBSHELL, body)
    ensures GroupRead(ws, lp, rp, body)
    decreases rp - lp, 6
  {
    hide KindOf, IsLine, ReadTo, Marks, Flush, Written;
    forall stack ensures Spelt(ws, lp, rp, body, Begin(false, stack)) {
      LineSpelt(ws, lp, rp, SUBSHELL, body, Begin(false, stack));
    }
  }

  lemma {:induction false} NodeWritten(t: Tree)
    requires t.Pipe? || t.And? || t.Or? || t.List?
    ensures Written(t) ==
      match t
      case Pipe(car, cdr, flags) =>
        Written(car) + ([PipeMark] + if Stderr in flags then [BothMark] else []) + Written(cdr) + Behind(flags)
      case And(car, cdr) => Written(car) + [AndMark] + Written(cdr)
      case Or(car, cdr) => Written(car) + [OrMark] + Written(cdr)
      case List(car, cdr) => Written(car) + Written(cdr)
  {
  }

  /** Two phrases and what is written between them. */
  lemma {:induction false} JoinMarks(m: seq<Mark>, f: seq<Mark>, s: seq<Mark>, n: seq<Mark>, g: seq<Mark>)
    ensures m + (f + s) + n + g == (m + f) + s + (n + g)
  {
  }

  /** A separator between two phrases. */
  lemma {:induction false} Between(ws: Line, i: nat, k: nat, j: nat, r: Reader)
    requires i <= k < j <= |ws|
    ensures var e := ReadTo(ws, i, k, r); var b := Shift(e, ws[k]);
      && ReadTo(ws, i, j, r) == ReadTo(ws, k + 1, j, b)
      && Marks(ws, i, j, r) == Marks(ws, i, k, r) + Emit(e, ws[k]) + Marks(ws, k + 1, j, b)
  {
    hide ReadTo, Marks, Shift, Emit;
    Split(ws, i, k, j, r);
    OneWord(ws, k, j, ReadTo(ws, i, k, r));
  }

  /** What the separators do to a reader that is at the end of a command. */
  lemma {:induction false} SeparatorStep(e: Reader, w: Word)
    requires Phrases.Settled(e.m) && !e.bar && e.part
    ensures KindOf(w).Bar? ==>
      Shift(e, w) == Begin(true, e.stack).(bar := true) && Emit(e, w) == Flush(e, false) + [PipeMark]
    ensures KindOf(w).OrOr? ==> Shift(e, w) == Begin(true, e.stack) && Emit(e, w) == Flush(e, false) + [OrMark]
    ensures KindOf(w).AndAnd? && e.piece ==>
      Shift(e, w) == Begin(true, e.stack) && Emit(e, w) == Flush(e, false) + [AndMark]
    ensures KindOf(w).Semi? ==> Shift(e, w) == Begin(true, e.stack) && Emit(e, w) == Flush(e, false)
    ensures KindOf(w).Amp? ==>
      Shift(e, w) == Begin(false, e.stack) && Emit(e, w) == Flush(e, false) + [BackMark, QuietMark]
  {
    KindChars(w);
  }

  lemma {:induction false} BothStep(stack: seq<Io>, w: Word)
    requires Is(w, "&")
    ensures var r := Begin(true, stack).(bar := true);
      Shift(r, w) == Begin(true, stack) && Emit(r, w) == [BothMark] && KindOf(w).Amp?
  {
    FixedWords(w);
    KindChars(w);
  }

  lemma {:induction false} PipelineSpelt(ws: Line, i: nat, j: nat, c: Context, t: Tree, r: Reader)
    requires i <= j <= |ws| && IsPipeline(ws, i, j, c, t) && AtStart(r)
    ensures Spelt(ws, i, j, t, r) && Unmarked(t) && Stays(r, ReadTo(ws, i, j, r))
    decreases j - i, 1
  {
    hide KindOf, Is, IsSimple, ReadTo, Marks, Flush, Shift, Emit, Written;
    if IsSimple(ws, i, j, c, t) {
      SimpleSpelt(ws, i, j, c, t, r);
    } else {
      var k :| i < k < j && BarAt(ws, i, k, j, c, t);
      var both := k + 1 < j && Is(ws[k + 1], "&");
      SimpleSpelt(ws, i, k, c.(pout := true, perr := c.perr || both), t.car, r);
      var b := Begin(true, r.stack);
      if both {
        PipelineSpelt(ws, k + 2, j, c.(pin := true), t.cdr, b);
      } else {
        PipelineSpelt(ws, k + 1, j, c.(pin := true), t.cdr, b.(bar := true));
      }
      PipeSpelt(ws, i, k, j, both, t, r);
    }
  }

  /** A pipe between two phrases. */
  lemma {:induction false} PipeSpelt(ws: Line, i: nat, k: nat, j: nat, both: bool, t: Tree, r: Reader)
    requires i < k < j <= |ws| && (both ==> k + 2 <= j && Is(ws[k + 1], "&")) && KindOf(ws[k]).Bar? && t.Pipe?
    requires t.flags == (if both then {Stderr} else {})
    requires Spelt(ws, i, k, t.car, r) && Stays(r, ReadTo(ws, i, k, r))
    requires var b, m := Begin(true, r.stack).(bar := !both), if both then k + 2 else k + 1;
      Spelt(ws, m, j, t.cdr, b) && Stays(b, ReadTo(ws, m, j, b))
    ensures Spelt(ws, i, j, t, r) && Stays(r, ReadTo(ws, i, j, r))
  {
    hide KindOf, Is, ReadTo, Marks, Flush, Shift, Emit, Written;
    var e, b := ReadTo(ws, i, k, r), Begin(true, r.stack).(bar := true);
    SeparatorStep(e, ws[k]);
    Between(ws, i, k, j, r);
    NodeWritten(t);
    var g := Flush(ReadTo(ws, i, j, r), Shut(ws, j));
    if both {
      BothStep(r.stack, ws[k + 1]);
      OneWord(ws, k + 1, j, b);
      JoinBoth(Marks(ws, i, k, r), Flush(e, false), Marks(ws, k + 2, j, Begin(true, r.stack)), g);
    } else {
      JoinPipe(Marks(ws, i, k, r), Flush(e, false), Marks(ws, k + 1, j, b), g);
    }
  }

  lemma {:induction false} JoinPipe(m: seq<Mark>, f: seq<Mark>, n: seq<Mark>, g: seq<Mark>)
    ensures m + (f + [PipeMark]) + n + g == (m + f) + ([PipeMark] + []) + (n + g) + Behind({})
  {
  }

  lemma {:induction false} JoinBoth(m: seq<Mark>, f: seq<Mark>, n: seq<Mark>, g: seq<Mark>)
    ensures m + (f + [PipeMark]) + ([BothMark] + n) + g ==
      (m + f) + ([PipeMark] + [BothMark]) + (n + g) + Behind({Stderr})
  {
  }

  lemma {:induction false} InfixSpelt(ws: Line, i: nat, j: nat, c: Context, op: Kind, t: Tree, r: Reader)
    requires i <= j <= |ws| && (op == OrOr || op == AndAnd) && IsInfix(ws, i, j, c, op, t) && AtStart(r)
    ensures Spelt(ws, i, j, t, r) && Unmarked(t) && Stays(r, ReadTo(ws, i, j, r))
    decreases j - i, if op.OrOr? then 3 else 2, 1
  {
    hide KindOf, Is, IsOperand, ReadTo, Marks, Flush, Shift, Emit, Written;
    if IsOperand(ws, i, j, c, op, t) {
      OperandSpelt(ws, i, j, c, op, t, r);
    } else {
      var k :| i < k < j && InfixAt(ws, i, k, j, c, op, t);
      OperandSpelt(ws, i, k, c, op, t.car, r);
      var e, b := ReadTo(ws, i, k, r), Begin(true, r.stack);
      SeparatorStep(e, ws[k]);
      Between(ws, i, k, j, r);
      InfixSpelt(ws, k + 1, j, c, op, t.cdr, b);
      NodeWritten(t);
      JoinMarks(Marks(ws, i, k, r), Flush(e, false), [if op.OrOr? then OrMark else AndMark],
                Marks(ws, k + 1, j, b), Flush(ReadTo(ws, i, j, r), Shut(ws, j)));
    }
  }

  lemma {:induction false} OperandSpelt(ws: Line, i: nat, j: nat, c: Context, op: Kind, t: Tree, r: Reader)
    requires i <= j <= |ws| && (op == OrOr || op == AndAnd) && IsOperand(ws, i, j, c, op, t) && AtStart(r)
    ensures Spelt(ws, i, j, t, r) && Unmarked(t) && Stays(r, ReadTo(ws, i, j, r))
    decreases j - i, if op.OrOr? then 3 else 2, 0
  {
    hide KindOf, Is, IsInfix, IsPipeline, ReadTo, Marks, Flush, Written;
    if op.OrOr? {
      InfixSpelt(ws, i, j, c, AndAnd, t, r);
    } else {
      PipelineSpelt(ws, i, j, c, t, r);
    }
  }

  lemma {:induction false} SequenceSpelt(ws: Line, i: nat, j: nat, c: Context, t: Tree, r: Reader)
    requires i <= j <= |ws| && IsSequence(ws, i, j, c, t) && AtStart(r)
    ensures Spelt(ws, i, j, t, r) && Unmarked(t) && !ReadTo(ws, i, j, r).bar && ReadTo(ws, i, j, r).part
    decreases j - i, 4
  {
    hide KindOf, Is, IsInfix, IsSentence, ReadTo, Marks, Flush, Shift, Emit, NoTop, Written;
    if IsInfix(ws, i, j, c, OrOr, t) {
      InfixSpelt(ws, i, j, c, OrOr, t, r);
    } else {
      var k :| i < k < j && SemiAt(ws, i, k, j, c, t);
      var car, cdr := if t.car.Null? then t.cdr else t.car, if t.car.Null? then Null else t.cdr;
      InfixSpelt(ws, i, k, c, OrOr, car, r);
      var e, b := ReadTo(ws, i, k, r), Begin(true, r.stack);
      SeparatorStep(e, ws[k]);
      Between(ws, i, k, j, r);
      SentenceSpelt(ws, k + 1, j, c, cdr, b);
      NodeWritten(t);
      NullWritten();
      JoinMarks(Marks(ws, i, k, r), Flush(e, false), [], Marks(ws, k + 1, j, b),
                Flush(ReadTo(ws, i, j, r), Shut(ws, j)));
      assert Flush(e, false) + [] == Flush(e, false) && Written(car) + [] == Written(car);
      assert Written(car) + Written(cdr) == Written(t.car) + Written(t.cdr);
    }
  }

  lemma {:induction false} NullWritten()
    ensures Written(Null) == [] && forall s: seq<Mark> :: s + [] == s && [] + s == s
  {
  }

  lemma {:induction false} BackgroundWritten(t: Tree)
    requires Unmarked(t)
    ensures Written(Background(t)) == Written(t) + [BackMark, QuietMark]
  {
    hide Args;
    match t
    case Command(av, io) => assert Own(io.(flags := io.flags + {Ampersand, NoInterrupt})) == Own(io);
    case Paren(_, io) => assert Own(io.(flags := io.flags + {Ampersand, NoInterrupt})) == Own(io);
    case _ =>
  }

  lemma {:induction false} LineSpelt(ws: Line, i: nat, j: nat, c: Context, t: Tree, r: Reader)
    requires i <= j <= |ws| && IsLine(ws, i, j, c, t) && AtStart(r) && !r.bar
    requires r.part ==> NoTop(ws, i, j, {Amp})
    ensures Spelt(ws, i, j, t, r) && !ReadTo(ws, i, j, r).bar && (r.part ==> ReadTo(ws, i, j, r).part)
    decreases j - i, 5
  {
    hide KindOf, Is, IsSequence, IsSentence, ReadTo, Marks, Flush, Shift, Emit, NoTop, Written, Background;
    if r.part {
      LineUncut(ws, i, j, c, t);
    }
    if IsSequence(ws, i, j, c, t) {
      SequenceSpelt(ws, i, j, c, t, r);
    } else {
      var k, first :| i < k < j && AmpAt(ws, i, k, j, c, first, t);
      SequenceSpelt(ws, i, k, c, first, r);
      var e, b := ReadTo(ws, i, k, r), Begin(false, r.stack);
      SeparatorStep(e, ws[k]);
      Between(ws, i, k, j, r);
      SentenceSpelt(ws, k, j, c, t.cdr, b);
      OneWord(ws, k, j, b);
      SkipStep(b, ws[k]);
      BackgroundWritten(first);
      NodeWritten(t);
      NullWritten();
      JoinMarks(Marks(ws, i, k, r), Flush(e, false), [BackMark, QuietMark], Marks(ws, k + 1, j, b),
                Flush(ReadTo(ws, i, j, r), Shut(ws, j)));
    }
  }

  /** A separator where no command has begun yet. */
  lemma {:induction false} SkipStep(r: Reader, w: Word)
    requires AtStart(r) && !r.bar && KindOf(w) in {Amp, AndAnd, Semi} && (KindOf(w).Amp? ==> !r.part)
    ensures Shift(r, w) == r && Emit(r, w) == []
  {
    KindChars(w);
  }

  /** The tree of a line, written out, is what is read of it. */
  lemma {:induction false} SentenceSpelt(ws: Line, i: nat, j: nat, c: Context, t: Tree, r: Reader)
    requires i <= j <= |ws| && IsSentence(ws, i, j, c, t) && AtStart(r) && !r.bar
    requires r.part ==> NoTop(ws, i, j, {Amp})
    ensures Spelt(ws, i, j, t, r) && !ReadTo(ws, i, j, r).bar && (r.part ==> ReadTo(ws, i, j, r).part)
    decreases j - i, 6
  {
    hide KindOf, Is, IsLine, ReadTo, Marks, Shift, Emit, NoTop;
    Nothing(ws, i);
    if i < j {
      if KindOf(ws[i]) in {Amp, AndAnd, Semi} {
        if r.part {
          Skipped(ws, i, j);
        }
        SkipStep(r, ws[i]);
        OneWord(ws, i, j, r);
        SentenceSpelt(ws, i + 1, j, c, t, r);
      } else {
        LineSpelt(ws, i, j, c, t, r);
      }
    }
  }

  lemma {:induction false} Skipped(ws: Line, i: nat, j: nat)
    requires i < j <= |ws| && NoTop(ws, i, j, {Amp}) && KindOf(ws[i]) in {Amp, AndAnd, Semi}
    ensures !KindOf(ws[i]).Amp? && NoTop(ws, i + 1, j, {Amp})
  {
    hide KindOf, Is;
    assert Depth(ws, i, i) == 0;
    assert Depth(ws, i, i + 1) == 0;
    NoTopParts(ws, i, i + 1, j, {Amp});
  }

  /** A whole line. */
  lemma {:induction false} LineWritten(ws: Line, t: Tree)
    requires IsSentence(ws, 0, |ws|, TOP, t)
    ensures Written(t) == Whole(ws)
  {
    SentenceSpelt(ws, 0, |ws|, TOP, t, Begin(false, []));
  }
}
