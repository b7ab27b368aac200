/** What `format_env` prints, `parse_env` reads back: the regular expression
    finds exactly the printed lines, and in each exactly key and value. */
module EnvRoundTrip {
  import opened Common
  import opened Regex
  import opened EnvFormat

  predicate ValidKey(key: string) {
    key != [] && forall i :: 0 <= i < |key| ==> key[i] in KEY_CHARS
  }

  lemma ValidKeyMeaning(key: string)
    ensures ValidKey(key) <==>
      |key| > 0 && forall i :: 0 <= i < |key| ==>
        'A' <= key[i] <= 'Z' || 'a' <= key[i] <= 'z' || '0' <= key[i] <= '9' || key[i] in ['_', '.', '-']
  {
  }

  ghost predicate ValidKeys(values: Values) {
    forall key :: key in values.at ==> ValidKey(key)
  }

  ghost predicate At(text: string, i: nat, s: string) {
    i + |s| <= |text| && text[i..i + |s|] == s
  }

  lemma AtParts(text: string, i: nat, s: string, t: string)
    requires At(text, i, s + t)
    ensures At(text, i, s) && At(text, i + |s|, t)
  {
    assert text[i..i + |s|] == (s + t)[..|s|];
    assert text[i + |s|..i + |s| + |t|] == (s + t)[|s|..];
  }

  /******* One line *******/

  lemma TailAtNewline(text: string, i: nat, marks: map<Slot, nat>)
    requires i < |text| && text[i] == '\n'
    ensures MatchAt(Tail(), text, i, marks) == Some(Found(i, marks))
  {
    var comment := Char(In({'#'}), Star(IN_LINE, LineEnd(Accept)));
    assert MatchAt(Accept, text, i, marks) == Some(Found(i, marks));
    assert MatchAt(comment, text, i, marks) == None;
    assert MatchAt(Either(comment, LineEnd(Accept)), text, i, marks) == Some(Found(i, marks));
  }

  lemma BodyEnds(text: string, i: nat, marks: map<Slot, nat>)
    requires At(text, i, "\"\n")
    ensures MatchAt(DoubleBody(), text, i, marks) == Some(Found(i + 1, marks[DoubleEnd := i]))
  {
    hide MatchAt, Tail;
    assert text[i] == text[i..i + 2][0] && text[i + 1] == text[i..i + 2][1];
    TailAtNewline(text, i + 1, marks[DoubleEnd := i]);
    CharStep(QUOTE, Tail(), text, i, marks[DoubleEnd := i]);
    MarkStep(DoubleEnd, Char(QUOTE, Tail()), text, i, marks);
    StarEitherStep(PLAIN, BACKSLASH, ANY, Mark(DoubleEnd, Char(QUOTE, Tail())), text, i, marks);
  }

  /** The quoted scan stops exactly at the quote that closes the value. */
  lemma {:induction false} BodyEndsAtQuote(text: string, i: nat, value: string, marks: map<Slot, nat>)
    requires At(text, i, EscapeEach(value) + "\"\n")
    ensures var end := i + |EscapeEach(value)|;
            MatchAt(DoubleBody(), text, i, marks) == Some(Found(end + 1, marks[DoubleEnd := end]))
    decreases |value|
  {
    hide MatchAt;
    if value == [] {
      assert EscapeEach(value) + "\"\n" == "\"\n";
      BodyEnds(text, i, marks);
    } else {
      var head, rest := Escaped(value[0]), EscapeEach(value[1..]) + "\"\n";
      assert EscapeEach(value) + "\"\n" == head + rest;
      AtParts(text, i, head, rest);
      BodyEndsAtQuote(text, i + |head|, value[1..], marks);
      BodyTakesOne(text, i, value[0], marks);
    }
  }

  /** The scan goes on after the printed form of one character. */
  lemma BodyTakesOne(text: string, i: nat, c: char, marks: map<Slot, nat>)
    requires At(text, i, Escaped(c))
    requires MatchAt(DoubleBody(), text, i + |Escaped(c)|, marks).Some?
    ensures MatchAt(DoubleBody(), text, i, marks) == MatchAt(DoubleBody(), text, i + |Escaped(c)|, marks)
  {
    hide MatchAt, Tail;
    var head := Escaped(c);
    assert text[i] == text[i..i + |head|][0];
    if |head| == 2 {
      assert text[i] == '\\' && !HasAt(PLAIN, text, i);
    }
    StarEitherStep(PLAIN, BACKSLASH, ANY, Mark(DoubleEnd, Char(QUOTE, Tail())), text, i, marks);
  }

  lemma ValueIsQuoted(text: string, i: nat, value: string, marks: map<Slot, nat>)
    requires At(text, i, "\"" + (EscapeEach(value) + "\"\n"))
    ensures var end := i + 1 + |EscapeEach(value)|;
            MatchAt(Value(), text, i, marks) == Some(Found(end + 1, marks[DoubleStart := i + 1][DoubleEnd := end]))
  {
    AtParts(text, i, "\"", EscapeEach(value) + "\"\n");
    assert text[i] == text[i..i + 1][0];
    BodyEndsAtQuote(text, i + 1, value, marks[DoubleStart := i + 1]);
    assert MatchAt(DoubleQuoted(), text, i, marks) ==
      MatchAt(Mark(DoubleStart, DoubleBody()), text, i + 1, marks);
  }

  function LineMarks(i: nat, key: string, value: string): map<Slot, nat> {
    var start := i + |key| + 2;
    map[KeyStart := i][KeyEnd := i + |key|][DoubleStart := start][DoubleEnd := start + |EscapeEach(value)|]
  }

  ghost function LineText(key: string, value: string): string {
    key + ("=" + ("\"" + (EscapeEach(value) + "\"\n")))
  }

  lemma LineTextIsLine(key: string, value: string)
    ensures Line(key, value) == LineText(key, value)
  {
    EscapeIsPerCharacter(value);
  }

  lemma AssignedMatches(text: string, i: nat, value: string, marks: map<Slot, nat>)
    requires At(text, i, "=" + ("\"" + (EscapeEach(value) + "\"\n")))
    ensures var end := i + 2 + |EscapeEach(value)|;
            MatchAt(Assigned(), text, i, marks) == Some(Found(end + 1, marks[DoubleStart := i + 2][DoubleEnd := end]))
  {
    hide EscapeEach, Value;
    AtParts(text, i, "=", "\"" + (EscapeEach(value) + "\"\n"));
    AtParts(text, i + 1, "\"", EscapeEach(value) + "\"\n");
    assert text[i] == text[i..i + 1][0] && text[i + 1] == text[i + 1..i + 2][0];
    ValueIsQuoted(text, i + 1, value, marks);
    assert !HasAt(BLANK, text, i) && !HasAt(BLANK, text, i + 1);
    assert MatchAt(Star(BLANK, Value()), text, i + 1, marks) == MatchAt(Value(), text, i + 1, marks);
    assert MatchAt(Char(EQUALS, Star(BLANK, Value())), text, i, marks).Some?;
  }

  lemma KeyedMatches(text: string, i: nat, key: string, value: string)
    requires ValidKey(key) && At(text, i, LineText(key, value))
    ensures MatchAt(Keyed(), text, i, map[]) ==
      Some(Found(i + |key| + 3 + |EscapeEach(value)|, LineMarks(i, key, value)))
  {
    hide MatchAt, Assigned, EscapeEach;
    var rest := "=" + ("\"" + (EscapeEach(value) + "\"\n"));
    AtParts(text, i, key, rest);
    AtParts(text, i + |key|, "=", "\"" + (EscapeEach(value) + "\"\n"));
    KeyAt(text, i, key);
    var end := i + |key|;
    assert text[end] == text[end..end + 1][0] == '=';
    var marks: map<Slot, nat> := map[KeyStart := i];
    AssignedMatches(text, end, value, marks[KeyEnd := end]);
    MarkStep(KeyEnd, Assigned(), text, end, marks);
    StarTakesRun(KEY, Mark(KeyEnd, Assigned()), text, i + 1, end, marks);
    CharStep(KEY, Star(KEY, Mark(KeyEnd, Assigned())), text, i, marks);
    MarkStep(KeyStart, Char(KEY, Star(KEY, Mark(KeyEnd, Assigned()))), text, i, map[]);
  }

  lemma KeyAt(text: string, i: nat, key: string)
    requires At(text, i, key)
    ensures forall j :: i <= j < i + |key| ==> text[j] == key[j - i]
  {
    forall j | i <= j < i + |key| ensures text[j] == key[j - i] {
      assert text[j] == text[i..i + |key|][j - i];
    }
  }

  /** No key is taken for the word export: a blank would have to follow it. */
  lemma ExportedFails(text: string, i: nat, key: string)
    requires ValidKey(key) && At(text, i, key + "=")
    ensures MatchAt(Exported(), text, i, map[]) == None
  {
    AtParts(text, i, key, "=");
    KeyAt(text, i, key);
    assert text[i + |key|] == text[i + |key|..i + |key| + 1][0] == '=';
    if MatchAt(Exported(), text, i, map[]).Some? {
      var word := "export";
      CharsSplit(word, Char(BLANK, Star(BLANK, Keyed())), text, i, map[]);
      KeyAt(text, i, word);
    }
  }

  lemma EntryMatches(text: string, i: nat, key: string, value: string)
    requires ValidKey(key) && At(text, i, LineText(key, value)) && AtLineStart(text, i)
    ensures MatchAt(Entry(), text, i, map[]) ==
      Some(Found(i + |LineText(key, value)| - 1, LineMarks(i, key, value)))
  {
    var rest := "\"" + (EscapeEach(value) + "\"\n");
    assert LineText(key, value) == (key + "=") + rest;
    AtParts(text, i, key + "=", rest);
    AtParts(text, i, key, "=");
    KeyAt(text, i, key);
    ExportedFails(text, i, key);
    KeyedMatches(text, i, key, value);
    assert !HasAt(BLANK, text, i);
    var either := Either(Exported(), Keyed());
    assert MatchAt(either, text, i, map[]) == MatchAt(Keyed(), text, i, map[]);
    assert MatchAt(Star(BLANK, either), text, i, map[]) == MatchAt(either, text, i, map[]);
  }

  /** The key and the value read from the match are the ones printed. */
  lemma LineReadsBack(text: string, i: nat, key: string, value: string)
    requires At(text, i, LineText(key, value))
    ensures var found := Found(i + |LineText(key, value)| - 1, LineMarks(i, key, value));
            KeyOf(text, found) == key && ValueOf(text, found) == value
  {
    hide EscapeEach, Unescape;
    var body := EscapeEach(value);
    AtParts(text, i, key, "=" + ("\"" + (body + "\"\n")));
    AtParts(text, i + |key|, "=", "\"" + (body + "\"\n"));
    AtParts(text, i + |key| + 1, "\"", body + "\"\n");
    AtParts(text, i + |key| + 2, body, "\"\n");
    UnescapeEscape(value);
  }

  lemma NoEntryAtEnd(text: string)
    ensures MatchAt(Entry(), text, |text|, map[]) == None
  {
    if MatchAt(Exported(), text, |text|, map[]).Some? {
      CharsSplit("export", Char(BLANK, Star(BLANK, Keyed())), text, |text|, map[]);
    }
    assert MatchAt(Char(KEY, Star(KEY, Mark(KeyEnd, Assigned()))), text, |text|, map[KeyStart := |text|]) == None;
    assert MatchAt(Keyed(), text, |text|, map[]) == None;
    assert MatchAt(Either(Exported(), Keyed()), text, |text|, map[]) == None;
  }

  /******* The whole file *******/

  lemma {:induction false} FormattedPrefix(values: Values, count: nat, more: nat)
    requires values.Valid() && count <= more <= |values.keys|
    ensures Formatted(values, count) <= Formatted(values, more)
    decreases more
  {
    if count < more {
      FormattedPrefix(values, count, more - 1);
    }
  }

  lemma FormattedEndsLine(values: Values, count: nat)
    requires values.Valid() && count <= |values.keys|
    ensures AtLineStart(Formatted(values, count), |Formatted(values, count)|)
  {
  }

  /** The dict of the first `count` entries. */
  function Prefix(values: Values, count: nat): (prefix: Values)
    requires values.Valid() && count <= |values.keys|
    ensures prefix.Valid()
  {
    assert forall key :: key in values.keys[..count] ==> key in values.keys;
    Dict(values.keys[..count], map key | key in values.keys[..count] :: values.at[key])
  }

  lemma PrefixPut(values: Values, count: nat)
    requires values.Valid() && count < |values.keys|
    ensures var key := values.keys[count];
            key in values.at && Prefix(values, count + 1) == Prefix(values, count).Put(key, values.at[key])
  {
    var key := values.keys[count];
    assert key in values.keys;
    assert values.keys[..count + 1] == values.keys[..count] + [key];
  }

  lemma InPlace(text: string, before: string, s: string)
    requires before + s <= text
    ensures At(text, |before|, s)
    ensures before != [] ==> text[|before| - 1] == before[|before| - 1]
  {
    var after := before + s;
    assert text[..|after|] == after;
    assert text[|before|..|after|] == after[|before|..];
    if before != [] {
      assert text[|before| - 1] == after[|before| - 1];
    }
  }

  lemma LineInPlace(values: Values, count: nat, text: string)
    requires values.Valid() && count < |values.keys|
    requires text == Formatted(values, |values.keys|)
    ensures var key := values.keys[count];
            key in values.at && At(text, |Formatted(values, count)|, LineText(key, values.at[key]))
    ensures |Formatted(values, count)| <= |text| && AtLineStart(text, |Formatted(values, count)|)
    ensures var key := values.keys[count];
            |Formatted(values, count + 1)| == |Formatted(values, count)| + |LineText(key, values.at[key])|
  {
    hide LineText, Line, At;
    var key := values.keys[count];
    assert key in values.keys;
    var before := Formatted(values, count);
    FormattedPrefix(values, count + 1, |values.keys|);
    LineTextIsLine(key, values.at[key]);
    InPlace(text, before, LineText(key, values.at[key]));
    FormattedEndsLine(values, count);
  }

  lemma LineIsFound(text: string, i: nat, key: string, value: string)
    requires ValidKey(key) && At(text, i, LineText(key, value)) && AtLineStart(text, i)
    ensures var found := Found(i + |LineText(key, value)| - 1, LineMarks(i, key, value));
            FindAll(Entry(), text, i) == [found] + FindAll(Entry(), text, i + |LineText(key, value)|)
  {
    EntryMatches(text, i, key, value);
    SkipsNewline(text, i + |LineText(key, value)| - 1, i, key, value);
  }

  /** From the start of any printed line on, exactly the rest is found. */
  lemma {:induction false} FindsTheRest(values: Values, count: nat, text: string)
    requires values.Valid() && ValidKeys(values) && count <= |values.keys|
    requires text == Formatted(values, |values.keys|)
    ensures |Formatted(values, count)| <= |text| &&
            Assign(Prefix(values, count), text, FindAll(Entry(), text, |Formatted(values, count)|)) == values
    decreases |values.keys| - count
  {
    hide LineText, At, FindAll, LineMarks, Formatted, KeyOf, ValueOf, MatchAt, Entry, Assign;
    var i := |Formatted(values, count)|;
    if count == |values.keys| {
      NothingAtEnd(text);
      assert values.keys[..count] == values.keys;
      assert Prefix(values, count) == values;
      AssignNothing(values, text);
    } else {
      var key := values.keys[count];
      LineInPlace(values, count, text);
      var value := values.at[key];
      LineIsFound(text, i, key, value);
      LineReadsBack(text, i, key, value);
      PrefixPut(values, count);
      FindsTheRest(values, count + 1, text);
      var found := Found(i + |LineText(key, value)| - 1, LineMarks(i, key, value));
      AssignNext(Prefix(values, count), text, found, FindAll(Entry(), text, i + |LineText(key, value)|));
    }
  }

  lemma AssignNothing(values: Values, text: string)
    requires values.Valid()
    ensures Assign(values, text, []) == values
  {
  }

  lemma AssignNext(values: Values, text: string, found: Found<Slot>, rest: seq<Found<Slot>>)
    requires values.Valid()
    ensures Assign(values, text, [found] + rest) ==
            Assign(values.Put(KeyOf(text, found), ValueOf(text, found)), text, rest)
  {
    assert ([found] + rest)[1..] == rest;
  }

  lemma NothingAtEnd(text: string)
    ensures FindAll(Entry(), text, |text|) == []
  {
    NoEntryAtEnd(text);
  }

  /** The newline that ends a line starts no match. */
  lemma SkipsNewline(text: string, end: nat, i: nat, key: string, value: string)
    requires At(text, i, LineText(key, value)) && end == i + |LineText(key, value)| - 1
    ensures FindAll(Entry(), text, end) == FindAll(Entry(), text, end + 1)
  {
    hide EscapeEach;
    var line := LineText(key, value);
    assert text[end - 1] == text[i..i + |line|][|line| - 2] == '"';
  }

  /** Every dict with valid keys, whatever its values, survives being printed
      and read, the order of its entries included. */
  lemma FormatThenParse(values: Values)
    requires values.Valid() && ValidKeys(values)
    ensures Parsed(Formatted(values, |values.keys|)) == values
  {
    FindsTheRest(values, 0, Formatted(values, |values.keys|));
    assert Prefix(values, 0) == Dict([], map[]);
  }

  /******* Any file *******/

  /** The key of a match is never empty and holds key characters only. */
  lemma MatchHasKey(text: string, i: nat)
    requires i <= |text| && MatchAt(Entry(), text, i, map[]).Some?
    ensures ValidKey(KeyOf(text, MatchAt(Entry(), text, i, map[]).value))
  {
    var either := Either(Exported(), Keyed());
    var j := StarSplits(BLANK, either, text, i, map[]);
    if MatchAt(Exported(), text, j, map[]).Some? {
      var blank := Char(BLANK, Star(BLANK, Keyed()));
      CharsSplit("export", blank, text, j, map[]);
      var k := StarSplits(BLANK, Keyed(), text, j + 7, map[]);
      KeyedHasKey(text, k);
    } else {
      KeyedHasKey(text, j);
    }
  }

  lemma KeyedHasKey(text: string, i: nat)
    requires i <= |text| && MatchAt(Keyed(), text, i, map[]).Some?
    ensures ValidKey(KeyOf(text, MatchAt(Keyed(), text, i, map[]).value))
  {
    hide MatchAt, Assigned, Sets;
    var marks: map<Slot, nat> := map[KeyStart := i];
    var run := Star(KEY, Mark(KeyEnd, Assigned()));
    MarkStep(KeyStart, Char(KEY, run), text, i, map[]);
    CharNeedsOne(KEY, run, text, i, marks);
    CharStep(KEY, run, text, i, marks);
    var end := StarSplits(KEY, Mark(KeyEnd, Assigned()), text, i + 1, marks);
    MarkStep(KeyEnd, Assigned(), text, end, marks);
    AssignedSetsNoKey();
    KeepsOtherMarks(Assigned(), text, end, marks[KeyEnd := end], KeyStart);
    KeepsOtherMarks(Assigned(), text, end, marks[KeyEnd := end], KeyEnd);
    assert KeyOf(text, MatchAt(Keyed(), text, i, map[]).value) == text[i..end];
  }

  lemma AssignedSetsNoKey()
    ensures !Sets(Assigned(), {KeyStart}) && !Sets(Assigned(), {KeyEnd})
  {
    forall slot | slot == KeyStart || slot == KeyEnd ensures !Sets(Assigned(), {slot}) {
      var slots := {slot};
      assert !Sets(LineEnd(Accept), slots);
      assert !Sets(Char(In({'#'}), Star(IN_LINE, LineEnd(Accept))), slots);
      assert !Sets(Tail(), slots);
      assert !Sets(DoubleBody(), slots) by {
        assert !Sets(Mark(DoubleEnd, Char(QUOTE, Tail())), slots);
      }
      assert !Sets(DoubleQuoted(), slots);
      assert !Sets(SingleQuoted(), slots) by {
        assert !Sets(Mark(SingleEnd, Char(APOSTROPHE, Tail())), slots);
        assert !Sets(Star(NotIn({'\''}), Mark(SingleEnd, Char(APOSTROPHE, Tail()))), slots);
      }
      assert !Sets(Bare(), slots) by {
        assert !Sets(Mark(BareEnd, Tail()), slots);
      }
      assert !Sets(Value(), slots) by {
        assert !Sets(Either(SingleQuoted(), Bare()), slots);
      }
      assert !Sets(Char(EQUALS, Star(BLANK, Value())), slots);
    }
  }

  lemma {:induction false} FoundHaveKeys(text: string, i: nat)
    ensures forall n :: 0 <= n < |FindAll(Entry(), text, i)| ==> ValidKey(KeyOf(text, FindAll(Entry(), text, i)[n]))
    decreases |text| - i
  {
    if i <= |text| {
      var found := MatchAt(Entry(), text, i, map[]);
      if found.Some? {
        MatchHasKey(text, i);
      }
      if found.Some? && found.value.end > i {
        FoundHaveKeys(text, found.value.end);
      } else if i < |text| {
        FoundHaveKeys(text, i + 1);
      }
    }
  }

  lemma {:induction false} AssignKeepsValidKeys(values: Values, text: string, matches: seq<Found<Slot>>)
    requires values.Valid() && ValidKeys(values)
    requires forall n :: 0 <= n < |matches| ==> ValidKey(KeyOf(text, matches[n]))
    ensures ValidKeys(Assign(values, text, matches))
    decreases |matches|
  {
    if matches != [] {
      AssignKeepsValidKeys(values.Put(KeyOf(text, matches[0]), ValueOf(text, matches[0])), text, matches[1..]);
    }
  }

  /** Whatever the file holds, only valid keys are read from it. */
  lemma ParsedKeysValid(text: string)
    ensures ValidKeys(Parsed(text))
  {
    FoundHaveKeys(text, 0);
    AssignKeepsValidKeys(Dict([], map[]), text, FindAll(Entry(), text, 0));
  }

  /** Rewriting a file, hand-written or not, changes nothing that is read. */
  lemma RewriteKeepsValues(text: string)
    ensures Parsed(Formatted(Parsed(text), |Parsed(text).keys|)) == Parsed(text)
  {
    ParsedKeysValid(text);
    FormatThenParse(Parsed(text));
  }
}
