/** Python's backtracking regular expressions, as far as the secrets file needs
    them: a pattern is written with its continuation, alternatives are tried in
    order, and the first way to finish is the match. */
module Regex {
  import opened Common

  datatype CharClass = In(chars: set<char>) | NotIn(chars: set<char>)
  {
    predicate Has(c: char) {
      match this
      case In(chars) => c in chars
      case NotIn(chars) => c !in chars
    }
  }

  /** Each constructor but `Accept` matches something and goes on with `rest`. */
  datatype Pattern<Slot> =
    | Accept
    | Char(one: CharClass, rest: Pattern<Slot>)
    | Star(many: CharClass, rest: Pattern<Slot>)                    // c*
    | LazyStar(many: CharClass, rest: Pattern<Slot>)                // c*?
    | StarEither(one: CharClass, fst: CharClass, snd: CharClass, rest: Pattern<Slot>)  // (?:c|de)*
    | Either(first: Pattern<Slot>, second: Pattern<Slot>)           // p|q
    | Mark(slot: Slot, rest: Pattern<Slot>)                         // a group boundary
    | LineStart(rest: Pattern<Slot>)                                // ^ under MULTILINE
    | LineEnd(rest: Pattern<Slot>)                                  // $ under MULTILINE

  datatype Found<Slot(==)> = Found(end: nat, marks: map<Slot, nat>)

  predicate AtLineStart(text: string, i: nat)
    requires i <= |text|
  {
    i == 0 || text[i - 1] == '\n'
  }

  predicate AtLineEnd(text: string, i: nat)
    requires i <= |text|
  {
    i == |text| || text[i] == '\n'
  }

  function OrElse<T>(a: Option<T>, b: Option<T>): Option<T> {
    if a.Some? then a else b
  }

  predicate HasAt(c: CharClass, text: string, i: nat) {
    i < |text| && c.Has(text[i])
  }

  /** The match of `p` that starts at `i`, if there is one. */
  function MatchAt<Slot(!new)>(p: Pattern<Slot>, text: string, i: nat, marks: map<Slot, nat>)
    : (found: Option<Found<Slot>>)
    requires i <= |text|
    ensures found.Some? ==> i <= found.value.end <= |text|
    decreases |text| - i, p
  {
    match p
    case Accept => Some(Found(i, marks))
    case Char(one, rest) => if HasAt(one, text, i) then MatchAt(rest, text, i + 1, marks) else None
    case Star(many, rest) =>
      OrElse(if HasAt(many, text, i) then MatchAt(p, text, i + 1, marks) else None, MatchAt(rest, text, i, marks))
    case LazyStar(many, rest) =>
      OrElse(MatchAt(rest, text, i, marks), if HasAt(many, text, i) then MatchAt(p, text, i + 1, marks) else None)
    case StarEither(one, fst, snd, rest) =>
      OrElse(
        OrElse(
          if HasAt(one, text, i) then MatchAt(p, text, i + 1, marks) else None,
          if HasAt(fst, text, i) && HasAt(snd, text, i + 1) then MatchAt(p, text, i + 2, marks) else None),
        MatchAt(rest, text, i, marks))
    case Either(first, second) => OrElse(MatchAt(first, text, i, marks), MatchAt(second, text, i, marks))
    case Mark(slot, rest) => MatchAt(rest, text, i, marks[slot := i])
    case LineStart(rest) => if AtLineStart(text, i) then MatchAt(rest, text, i, marks) else None
    case LineEnd(rest) => if AtLineEnd(text, i) then MatchAt(rest, text, i, marks) else None
  }

  /** finditer: the matches from `i` on, left to right, each after the last. */
  function FindAll<Slot(!new)>(p: Pattern<Slot>, text: string, i: nat): seq<Found<Slot>>
    decreases |text| - i
  {
    if i > |text| then []
    else
      var found := MatchAt(p, text, i, map[]);
      if found.Some? && found.value.end > i then [found.value] + FindAll(p, text, found.value.end)
      else if i < |text| then FindAll(p, text, i + 1)
      else []
  }

  function Chars<Slot>(literal: string, rest: Pattern<Slot>): Pattern<Slot> {
    if literal == [] then rest else Char(In({literal[0]}), Chars(literal[1..], rest))
  }

  /******* What a match says, and what makes one *******/

  lemma CharStep<Slot(!new)>(one: CharClass, rest: Pattern<Slot>, text: string, i: nat, marks: map<Slot, nat>)
    requires HasAt(one, text, i)
    ensures MatchAt(Char(one, rest), text, i, marks) == MatchAt(rest, text, i + 1, marks)
  {
  }

  lemma CharNeedsOne<Slot(!new)>(one: CharClass, rest: Pattern<Slot>, text: string, i: nat, marks: map<Slot, nat>)
    requires i <= |text| && MatchAt(Char(one, rest), text, i, marks).Some?
    ensures HasAt(one, text, i)
  {
  }

  lemma NotChar<Slot(!new)>(one: CharClass, rest: Pattern<Slot>, text: string, i: nat, marks: map<Slot, nat>)
    requires i <= |text| && !HasAt(one, text, i)
    ensures MatchAt(Char(one, rest), text, i, marks) == None
  {
  }

  lemma EitherStep<Slot(!new)>(
    first: Pattern<Slot>, second: Pattern<Slot>, text: string, i: nat, marks: map<Slot, nat>)
    requires i <= |text|
    ensures MatchAt(Either(first, second), text, i, marks) ==
      OrElse(MatchAt(first, text, i, marks), MatchAt(second, text, i, marks))
  {
  }

  lemma LineStartStep<Slot(!new)>(rest: Pattern<Slot>, text: string, i: nat, marks: map<Slot, nat>)
    requires i <= |text|
    ensures MatchAt(LineStart(rest), text, i, marks) ==
      if AtLineStart(text, i) then MatchAt(rest, text, i, marks) else None
  {
  }

  lemma LineEndAccepts<Slot(!new)>(text: string, i: nat, marks: map<Slot, nat>)
    requires i <= |text| && AtLineEnd(text, i)
    ensures MatchAt(LineEnd(Accept), text, i, marks) == Some(Found(i, marks))
  {
    assert MatchAt(Accept, text, i, marks) == Some(Found(i, marks));
  }

  lemma MarkStep<Slot(!new)>(slot: Slot, rest: Pattern<Slot>, text: string, i: nat, marks: map<Slot, nat>)
    requires i <= |text|
    ensures MatchAt(Mark(slot, rest), text, i, marks) == MatchAt(rest, text, i, marks[slot := i])
  {
  }

  /** Such a star takes what it can while a match follows. */
  lemma StarEitherStep<Slot(!new)>(
    one: CharClass, fst: CharClass, snd: CharClass, rest: Pattern<Slot>, text: string, i: nat, marks: map<Slot, nat>)
    requires i <= |text|
    ensures var star := StarEither(one, fst, snd, rest);
            && (HasAt(one, text, i) && MatchAt(star, text, i + 1, marks).Some? ==>
                  MatchAt(star, text, i, marks) == MatchAt(star, text, i + 1, marks))
            && (!HasAt(one, text, i) && HasAt(fst, text, i) && HasAt(snd, text, i + 1)
                && MatchAt(star, text, i + 2, marks).Some? ==>
                  MatchAt(star, text, i, marks) == MatchAt(star, text, i + 2, marks))
            && (!HasAt(one, text, i) && !HasAt(fst, text, i) ==>
                  MatchAt(star, text, i, marks) == MatchAt(rest, text, i, marks))
  {
  }

  /** A greedy run of one class that ends where the class does, and goes on
      there with success, is taken whole. */
  lemma {:induction false} StarTakesRun<Slot(!new)>(
    many: CharClass, rest: Pattern<Slot>, text: string, i: nat, end: nat, marks: map<Slot, nat>)
    requires i <= end <= |text|
    requires forall j :: i <= j < end ==> many.Has(text[j])
    requires !HasAt(many, text, end)
    requires MatchAt(rest, text, end, marks).Some?
    ensures MatchAt(Star(many, rest), text, i, marks) == MatchAt(rest, text, end, marks)
    decreases end - i
  {
    if i < end {
      StarTakesRun(many, rest, text, i + 1, end, marks);
    }
  }

  /** A lazy run goes on exactly until what follows matches. */
  lemma {:induction false} LazyTakesRun<Slot(!new)>(
    many: CharClass, rest: Pattern<Slot>, text: string, i: nat, end: nat, marks: map<Slot, nat>)
    requires i <= end <= |text|
    requires forall j :: i <= j < end ==> many.Has(text[j]) && MatchAt(rest, text, j, marks) == None
    requires MatchAt(rest, text, end, marks).Some?
    ensures MatchAt(LazyStar(many, rest), text, i, marks) == MatchAt(rest, text, end, marks)
    decreases end - i
  {
    if i < end {
      LazyTakesRun(many, rest, text, i + 1, end, marks);
    }
  }

  lemma {:induction false} CharsMatch<Slot(!new)>(
    literal: string, rest: Pattern<Slot>, text: string, i: nat, marks: map<Slot, nat>)
    requires i + |literal| <= |text| && forall j :: 0 <= j < |literal| ==> text[i + j] == literal[j]
    ensures MatchAt(Chars(literal, rest), text, i, marks) == MatchAt(rest, text, i + |literal|, marks)
  {
    if literal != [] {
      assert text[i + 0] == literal[0];
      forall j | 0 <= j < |literal[1..]| ensures text[i + 1 + j] == literal[1..][j] {
        assert text[i + (j + 1)] == literal[j + 1];
      }
      CharsMatch(literal[1..], rest, text, i + 1, marks);
    }
  }

  /** A star's match goes on with `rest` after some run of its class. */
  lemma {:induction false} StarSplits<Slot(!new)>(
    many: CharClass, rest: Pattern<Slot>, text: string, i: nat, marks: map<Slot, nat>) returns (j: nat)
    requires i <= |text|
    requires MatchAt(Star(many, rest), text, i, marks).Some?
    ensures i <= j <= |text| && forall k :: i <= k < j ==> many.Has(text[k])
    ensures MatchAt(Star(many, rest), text, i, marks) == MatchAt(rest, text, j, marks)
    decreases |text| - i
  {
    if HasAt(many, text, i) && MatchAt(Star(many, rest), text, i + 1, marks).Some? {
      j := StarSplits(many, rest, text, i + 1, marks);
    } else {
      j := i;
    }
  }

  lemma {:induction false} CharsSplit<Slot(!new)>(
    literal: string, rest: Pattern<Slot>, text: string, i: nat, marks: map<Slot, nat>)
    requires i <= |text|
    requires MatchAt(Chars(literal, rest), text, i, marks).Some?
    ensures i + |literal| <= |text| && text[i..i + |literal|] == literal
    ensures MatchAt(Chars(literal, rest), text, i, marks) == MatchAt(rest, text, i + |literal|, marks)
  {
    if literal != [] {
      CharsSplit(literal[1..], rest, text, i + 1, marks);
      assert text[i..i + |literal|] == [text[i]] + text[i + 1..i + 1 + |literal[1..]|];
    }
  }

  ghost predicate Sets<Slot>(p: Pattern<Slot>, slots: set<Slot>) {
    match p
    case Accept => false
    case Mark(slot, rest) => slot in slots || Sets(rest, slots)
    case Either(first, second) => Sets(first, slots) || Sets(second, slots)
    case Char(_, rest) => Sets(rest, slots)
    case Star(_, rest) => Sets(rest, slots)
    case LazyStar(_, rest) => Sets(rest, slots)
    case StarEither(_, _, _, rest) => Sets(rest, slots)
    case LineStart(rest) => Sets(rest, slots)
    case LineEnd(rest) => Sets(rest, slots)
  }

  /** A pattern leaves alone the marks it does not set. */
  lemma {:induction false} KeepsOtherMarks<Slot(!new)>(
    p: Pattern<Slot>, text: string, i: nat, marks: map<Slot, nat>, slot: Slot)
    requires i <= |text| && !Sets(p, {slot})
    requires slot in marks && MatchAt(p, text, i, marks).Some?
    ensures slot in MatchAt(p, text, i, marks).value.marks
    ensures MatchAt(p, text, i, marks).value.marks[slot] == marks[slot]
    decreases |text| - i, p
  {
    match p
    case Accept =>
    case Char(one, rest) => KeepsOtherMarks(rest, text, i + 1, marks, slot);
    case Mark(other, rest) => KeepsOtherMarks(rest, text, i, marks[other := i], slot);
    case LineStart(rest) => KeepsOtherMarks(rest, text, i, marks, slot);
    case LineEnd(rest) => KeepsOtherMarks(rest, text, i, marks, slot);
    case Either(first, second) =>
      if MatchAt(first, text, i, marks).Some? {
        KeepsOtherMarks(first, text, i, marks, slot);
      } else {
        KeepsOtherMarks(second, text, i, marks, slot);
      }
    case Star(many, rest) =>
      if HasAt(many, text, i) && MatchAt(p, text, i + 1, marks).Some? {
        KeepsOtherMarks(p, text, i + 1, marks, slot);
      } else {
        KeepsOtherMarks(rest, text, i, marks, slot);
      }
    case LazyStar(many, rest) =>
      if MatchAt(rest, text, i, marks).Some? {
        KeepsOtherMarks(rest, text, i, marks, slot);
      } else {
        KeepsOtherMarks(p, text, i + 1, marks, slot);
      }
    case StarEither(one, fst, snd, rest) =>
      if HasAt(one, text, i) && MatchAt(p, text, i + 1, marks).Some? {
        KeepsOtherMarks(p, text, i + 1, marks, slot);
      } else if HasAt(fst, text, i) && HasAt(snd, text, i + 1) && MatchAt(p, text, i + 2, marks).Some? {
        KeepsOtherMarks(p, text, i + 2, marks, slot);
      } else {
        KeepsOtherMarks(rest, text, i, marks, slot);
      }
  }
}
