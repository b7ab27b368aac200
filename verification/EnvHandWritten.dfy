/** k8s/seed/scripts/cortexgrid_head.py, `parse_env` on files written by hand:
    bare, single-quoted and double-quoted values, exports, comments and blank
    lines. */
module EnvHandWritten {
  import opened Common
  import opened Regex
  import opened EnvFormat
  import opened EnvRoundTrip

  /** A piece of a double-quoted value: a character, or one behind a backslash. */
  datatype Piece = Plain(c: char) | Slashed(c: char)
  {
    ghost predicate WellFormed() {
      Plain? ==> c != '"' && c != '\\'
    }

    function Spelled(): string {
      if Plain? then [c] else ['\\', c]
    }

    /** Only four escapes mean something; any other stays as it is written. */
    function Meant(): string {
      if Plain? then [c]
      else
        match c
        case 'n' => "\n"
        case 'r' => "\r"
        case '"' => "\""
        case '\\' => "\\"
        case _ => ['\\', c]
    }
  }

  function Spelling(pieces: seq<Piece>): string {
    if pieces == [] then [] else pieces[0].Spelled() + Spelling(pieces[1..])
  }

  function Meaning(pieces: seq<Piece>): string {
    if pieces == [] then [] else pieces[0].Meant() + Meaning(pieces[1..])
  }

  ghost predicate Blanks(s: string) {
    forall i :: 0 <= i < |s| ==> s[i] == ' ' || s[i] == '\t'
  }

  ghost predicate Without(s: string, c: char) {
    forall i :: 0 <= i < |s| ==> s[i] != c
  }

  ghost predicate IsBlank(c: char) {
    c == ' ' || c == '\t'
  }

  datatype Written = BareText(text: string) | InSingle(text: string) | InDouble(pieces: seq<Piece>)
  {
    ghost predicate WellFormed() {
      match this
      case BareText(text) =>
        && Without(text, '\n') && Without(text, '#')
        && (text != [] ==>
              !IsBlank(text[0]) && text[0] != '"' && text[0] != '\'' && !IsBlank(text[|text| - 1]))
      case InSingle(text) => Without(text, '\'')
      case InDouble(pieces) => forall i :: 0 <= i < |pieces| ==> pieces[i].WellFormed()
    }

    function Text(): string {
      match this
      case BareText(text) => text
      case InSingle(text) => "'" + (text + "'")
      case InDouble(pieces) => "\"" + (Spelling(pieces) + "\"")
    }

    /** The value as written. */
    function Value(): string {
      match this
      case BareText(text) => text
      case InSingle(text) => text
      case InDouble(pieces) => Meaning(pieces)
    }
  }

  function CommentText(comment: Option<string>): string {
    if comment.Some? then "#" + comment.value else []
  }

  /** A line that assigns, or one that is blank or holds a comment only. */
  datatype FileLine =
    | Assigns(
        indent: string, exported: Option<string>, key: string, before: string, after: string, value: Written,
        trail: string, comment: Option<string>)
    | AssignsNothing(indent: string, comment: Option<string>)
  {
    ghost predicate WellFormed() {
      && Blanks(indent)
      && (comment.Some? ==> Without(comment.value, '\n'))
      && (Assigns? ==>
            && (exported.Some? ==> Blanks(exported.value) && exported.value != [])
            && ValidKey(key) && Blanks(before) && Blanks(after) && Blanks(trail)
            && value.WellFormed() && (value == BareText([]) ==> trail == []))
    }

    /** What follows the value. */
    function Rest(): string
      requires Assigns?
    {
      trail + CommentText(comment)
    }

    function FromKey(): string
      requires Assigns?
    {
      key + (before + ("=" + (after + (value.Text() + Rest()))))
    }

    function Text(): string {
      if AssignsNothing? then indent + CommentText(comment)
      else indent + (if exported.Some? then "export" + (exported.value + FromKey()) else FromKey())
    }
  }

  /** The file: its lines, each ended by a newline, but perhaps the last. */
  function FileText(lines: seq<FileLine>, closed: bool): string {
    if lines == [] then []
    else lines[0].Text() + ((if |lines| > 1 || closed then "\n" else "") + FileText(lines[1..], closed))
  }

  /** What the lines assign, in their order. */
  function Entered(values: Values, lines: seq<FileLine>): (after: Values)
    requires values.Valid()
    ensures after.Valid()
    decreases |lines|
  {
    if lines == [] then values
    else
      Entered(if lines[0].Assigns? then values.Put(lines[0].key, lines[0].value.Value()) else values, lines[1..])
  }

  /******* After the value *******/

  lemma AtElements(text: string, i: nat, s: string)
    requires At(text, i, s)
    ensures forall j :: 0 <= j < |s| ==> text[i + j] == s[j]
  {
    forall j | 0 <= j < |s| ensures text[i + j] == s[j] {
      assert text[i + j] == text[i..i + |s|][j];
    }
  }

  lemma BlankHas(c: char)
    ensures BLANK.Has(c) <==> IsBlank(c)
  {
  }

  /** Trailing blanks and comment are matched to the end of the line. */
  lemma TailMatches(text: string, i: nat, trail: string, comment: Option<string>, marks: map<Slot, nat>)
    requires At(text, i, trail + CommentText(comment)) && Blanks(trail)
    requires comment.Some? ==> Without(comment.value, '\n')
    requires AtLineEnd(text, i + |trail + CommentText(comment)|)
    ensures MatchAt(Tail(), text, i, marks) == Some(Found(i + |trail + CommentText(comment)|, marks))
  {
    hide MatchAt;
    var k, end := i + |trail|, i + |trail + CommentText(comment)|;
    AtElements(text, i, trail + CommentText(comment));
    var toEnd := Star(IN_LINE, LineEnd(Accept));
    var either := Either(Char(In({'#'}), toEnd), LineEnd(Accept));
    assert forall j :: i <= j < k ==> text[j] == (trail + CommentText(comment))[j - i];
    LineEndAccepts(text, end, marks);
    if comment.Some? {
      assert text[k] == (trail + CommentText(comment))[|trail|] == '#';
      assert forall j :: k + 1 <= j < end ==> text[j] == (trail + CommentText(comment))[j - i];
      StarTakesRun(IN_LINE, LineEnd(Accept), text, k + 1, end, marks);
      CharStep(In({'#'}), toEnd, text, k, marks);
    } else {
      NotChar(In({'#'}), toEnd, text, k, marks);
    }
    EitherStep(Char(In({'#'}), toEnd), LineEnd(Accept), text, k, marks);
    StarTakesRun(BLANK, either, text, i, k, marks);
  }

  /** Inside a bare value the line does not end. */
  lemma TailFails(text: string, i: nat, end: nat, marks: map<Slot, nat>)
    requires i < end <= |text| && !IsBlank(text[end - 1])
    requires forall j :: i <= j < end ==> text[j] != '\n' && text[j] != '#'
    ensures MatchAt(Tail(), text, i, marks) == None
  {
    var either := Either(Char(In({'#'}), Star(IN_LINE, LineEnd(Accept))), LineEnd(Accept));
    if MatchAt(Tail(), text, i, marks).Some? {
      var j := StarSplits(BLANK, either, text, i, marks);
      BlankHas(text[end - 1]);
    }
  }

  /******* The value *******/

  ghost function ValueMarks(i: nat, value: Written, marks: map<Slot, nat>): map<Slot, nat> {
    match value
    case BareText(text) => marks[BareStart := i][BareEnd := i + |text|]
    case InSingle(text) => marks[SingleStart := i + 1][SingleEnd := i + 1 + |text|]
    case InDouble(pieces) => marks[DoubleStart := i + 1][DoubleEnd := i + 1 + |Spelling(pieces)|]
  }

  ghost predicate ValueStands(text: string, i: nat, value: Written, trail: string, comment: Option<string>) {
    && value.WellFormed() && Blanks(trail) && (value == BareText([]) ==> trail == [])
    && (comment.Some? ==> Without(comment.value, '\n'))
    && At(text, i, value.Text() + (trail + CommentText(comment)))
    && AtLineEnd(text, i + |value.Text() + (trail + CommentText(comment))|)
  }

  lemma BareMatches(text: string, i: nat, value: Written, trail: string, comment: Option<string>, marks: map<Slot, nat>)
    requires ValueStands(text, i, value, trail, comment) && value.BareText?
    ensures MatchAt(Bare(), text, i, marks) ==
      Some(Found(i + |value.text + (trail + CommentText(comment))|, ValueMarks(i, value, marks)))
  {
    hide MatchAt, Tail;
    var bare, rest, end := value.text, trail + CommentText(comment), i + |value.text|;
    AtParts(text, i, bare, rest);
    AtElements(text, i, bare);
    assert forall j :: i <= j < end ==> text[j] == bare[j - i];
    var started := marks[BareStart := i];
    forall j | i <= j < end
      ensures MatchAt(Mark(BareEnd, Tail()), text, j, started) == None && text[j] != '\n' && text[j] != '#'
    {
      MarkStep(BareEnd, Tail(), text, j, started);
      TailFails(text, j, end, started[BareEnd := j]);
    }
    TailMatches(text, end, trail, comment, started[BareEnd := end]);
    MarkStep(BareEnd, Tail(), text, end, started);
    LazyTakesRun(NotIn({'\n', '#'}), Mark(BareEnd, Tail()), text, i, end, started);
    MarkStep(BareStart, LazyStar(NotIn({'\n', '#'}), Mark(BareEnd, Tail())), text, i, marks);
  }

  function SingleBody(): Pattern<Slot> {
    Star(NotIn({'\''}), Mark(SingleEnd, Char(APOSTROPHE, Tail())))
  }

  lemma SingleCloses(text: string, i: nat, trail: string, comment: Option<string>, marks: map<Slot, nat>)
    requires At(text, i, "'" + (trail + CommentText(comment))) && Blanks(trail)
    requires comment.Some? ==> Without(comment.value, '\n')
    requires AtLineEnd(text, i + |"'" + (trail + CommentText(comment))|)
    ensures MatchAt(Mark(SingleEnd, Char(APOSTROPHE, Tail())), text, i, marks) ==
      Some(Found(i + |"'" + (trail + CommentText(comment))|, marks[SingleEnd := i]))
    ensures text[i] == '\''
  {
    hide MatchAt, Tail;
    AtParts(text, i, "'", trail + CommentText(comment));
    AtElements(text, i, "'");
    assert text[i + 0] == "'"[0];
    TailMatches(text, i + 1, trail, comment, marks[SingleEnd := i]);
    CharStep(APOSTROPHE, Tail(), text, i, marks[SingleEnd := i]);
    MarkStep(SingleEnd, Char(APOSTROPHE, Tail()), text, i, marks);
  }

  lemma SingleRuns(
    text: string, i: nat, quoted: string, trail: string, comment: Option<string>, marks: map<Slot, nat>)
    requires At(text, i, quoted + ("'" + (trail + CommentText(comment)))) && Without(quoted, '\'') && Blanks(trail)
    requires comment.Some? ==> Without(comment.value, '\n')
    requires AtLineEnd(text, i + |quoted + ("'" + (trail + CommentText(comment)))|)
    ensures MatchAt(SingleBody(), text, i, marks) ==
      Some(Found(i + |quoted + ("'" + (trail + CommentText(comment)))|, marks[SingleEnd := i + |quoted|]))
  {
    hide MatchAt, Tail;
    var end := i + |quoted|;
    AtParts(text, i, quoted, "'" + (trail + CommentText(comment)));
    AtElements(text, i, quoted);
    SingleCloses(text, end, trail, comment, marks);
    assert forall j :: i <= j < end ==> text[j] == quoted[j - i];
    StarTakesRun(NotIn({'\''}), Mark(SingleEnd, Char(APOSTROPHE, Tail())), text, i, end, marks);
  }

  lemma Requote(quote: string, body: string, rest: string)
    ensures (quote + (body + quote)) + rest == quote + (body + (quote + rest))
  {
  }

  lemma SingleMatches(
    text: string, i: nat, value: Written, trail: string, comment: Option<string>, marks: map<Slot, nat>)
    requires ValueStands(text, i, value, trail, comment) && value.InSingle?
    ensures MatchAt(SingleQuoted(), text, i, marks) ==
      Some(Found(i + |value.Text() + (trail + CommentText(comment))|, ValueMarks(i, value, marks)))
  {
    hide MatchAt, Tail, CommentText;
    var rest := trail + CommentText(comment);
    Requote("'", value.text, rest);
    SingleOpens(text, i, value.text, trail, comment, marks);
  }

  lemma SingleOpens(
    text: string, i: nat, quoted: string, trail: string, comment: Option<string>, marks: map<Slot, nat>)
    requires Without(quoted, '\'') && Blanks(trail) && (comment.Some? ==> Without(comment.value, '\n'))
    requires At(text, i, "'" + (quoted + ("'" + (trail + CommentText(comment)))))
    requires AtLineEnd(text, i + |"'" + (quoted + ("'" + (trail + CommentText(comment))))|)
    ensures MatchAt(SingleQuoted(), text, i, marks) ==
      Some(Found(i + |"'" + (quoted + ("'" + (trail + CommentText(comment))))|,
        marks[SingleStart := i + 1][SingleEnd := i + 1 + |quoted|]))
  {
    hide MatchAt, Tail, CommentText;
    AtParts(text, i, "'", quoted + ("'" + (trail + CommentText(comment))));
    AtElements(text, i, "'");
    assert text[i + 0] == "'"[0];
    SingleRuns(text, i + 1, quoted, trail, comment, marks[SingleStart := i + 1]);
    MarkStep(SingleStart, SingleBody(), text, i + 1, marks);
    CharStep(APOSTROPHE, Mark(SingleStart, SingleBody()), text, i, marks);
  }

  lemma DoubleCloses(text: string, i: nat, trail: string, comment: Option<string>, marks: map<Slot, nat>)
    requires At(text, i, "\"" + (trail + CommentText(comment))) && Blanks(trail)
    requires comment.Some? ==> Without(comment.value, '\n')
    requires AtLineEnd(text, i + |"\"" + (trail + CommentText(comment))|)
    ensures MatchAt(DoubleBody(), text, i, marks) ==
      Some(Found(i + |"\"" + (trail + CommentText(comment))|, marks[DoubleEnd := i]))
  {
    hide MatchAt, Tail;
    AtParts(text, i, "\"", trail + CommentText(comment));
    AtElements(text, i, "\"");
    assert text[i + 0] == "\""[0];
    TailMatches(text, i + 1, trail, comment, marks[DoubleEnd := i]);
    CharStep(QUOTE, Tail(), text, i, marks[DoubleEnd := i]);
    MarkStep(DoubleEnd, Char(QUOTE, Tail()), text, i, marks);
    StarEitherStep(PLAIN, BACKSLASH, ANY, Mark(DoubleEnd, Char(QUOTE, Tail())), text, i, marks);
  }

  lemma PieceTaken(text: string, i: nat, piece: Piece, marks: map<Slot, nat>)
    requires piece.WellFormed() && At(text, i, piece.Spelled())
    requires MatchAt(DoubleBody(), text, i + |piece.Spelled()|, marks).Some?
    ensures MatchAt(DoubleBody(), text, i, marks) == MatchAt(DoubleBody(), text, i + |piece.Spelled()|, marks)
  {
    hide MatchAt, Tail;
    AtElements(text, i, piece.Spelled());
    assert text[i + 0] == piece.Spelled()[0];
    assert piece.Slashed? ==> text[i + 1] == piece.Spelled()[1];
    StarEitherStep(PLAIN, BACKSLASH, ANY, Mark(DoubleEnd, Char(QUOTE, Tail())), text, i, marks);
  }

  lemma {:induction false} PiecesMatch(
    text: string, i: nat, pieces: seq<Piece>, trail: string, comment: Option<string>, marks: map<Slot, nat>)
    requires forall n :: 0 <= n < |pieces| ==> pieces[n].WellFormed()
    requires Blanks(trail) && (comment.Some? ==> Without(comment.value, '\n'))
    requires At(text, i, Spelling(pieces) + ("\"" + (trail + CommentText(comment))))
    requires AtLineEnd(text, i + |Spelling(pieces) + ("\"" + (trail + CommentText(comment)))|)
    ensures MatchAt(DoubleBody(), text, i, marks) ==
      Some(Found(i + |Spelling(pieces) + ("\"" + (trail + CommentText(comment)))|,
        marks[DoubleEnd := i + |Spelling(pieces)|]))
    decreases |pieces|
  {
    hide MatchAt, DoubleBody, CommentText, Piece.Spelled;
    var rest := "\"" + (trail + CommentText(comment));
    if pieces == [] {
      assert Spelling(pieces) + rest == rest;
      DoubleCloses(text, i, trail, comment, marks);
    } else {
      var head, more := pieces[0].Spelled(), Spelling(pieces[1..]) + rest;
      assert Spelling(pieces) + rest == head + more;
      AtParts(text, i, head, more);
      PiecesMatch(text, i + |head|, pieces[1..], trail, comment, marks);
      PieceTaken(text, i, pieces[0], marks);
    }
  }

  lemma DoubleMatches(
    text: string, i: nat, value: Written, trail: string, comment: Option<string>, marks: map<Slot, nat>)
    requires ValueStands(text, i, value, trail, comment) && value.InDouble?
    ensures MatchAt(DoubleQuoted(), text, i, marks) ==
      Some(Found(i + |value.Text() + (trail + CommentText(comment))|, ValueMarks(i, value, marks)))
  {
    hide MatchAt, DoubleBody, CommentText, Spelling;
    var rest := trail + CommentText(comment);
    Requote("\"", Spelling(value.pieces), rest);
    DoubleOpens(text, i, value.pieces, trail, comment, marks);
  }

  lemma DoubleOpens(
    text: string, i: nat, pieces: seq<Piece>, trail: string, comment: Option<string>, marks: map<Slot, nat>)
    requires forall n :: 0 <= n < |pieces| ==> pieces[n].WellFormed()
    requires Blanks(trail) && (comment.Some? ==> Without(comment.value, '\n'))
    requires At(text, i, "\"" + (Spelling(pieces) + ("\"" + (trail + CommentText(comment)))))
    requires AtLineEnd(text, i + |"\"" + (Spelling(pieces) + ("\"" + (trail + CommentText(comment))))|)
    ensures MatchAt(DoubleQuoted(), text, i, marks) ==
      Some(Found(i + |"\"" + (Spelling(pieces) + ("\"" + (trail + CommentText(comment))))|,
        marks[DoubleStart := i + 1][DoubleEnd := i + 1 + |Spelling(pieces)|]))
  {
    hide MatchAt, DoubleBody, CommentText, Spelling;
    AtParts(text, i, "\"", Spelling(pieces) + ("\"" + (trail + CommentText(comment))));
    AtElements(text, i, "\"");
    assert text[i + 0] == "\""[0];
    PiecesMatch(text, i + 1, pieces, trail, comment, marks[DoubleStart := i + 1]);
    MarkStep(DoubleStart, DoubleBody(), text, i + 1, marks);
    CharStep(QUOTE, Mark(DoubleStart, DoubleBody()), text, i, marks);
  }

  /** The first character of what stands for the value decides which way it is
      read, and no blank is taken for one. */
  lemma ValueStarts(text: string, i: nat, value: Written, trail: string, comment: Option<string>)
    requires ValueStands(text, i, value, trail, comment)
    ensures i <= |text| && !HasAt(BLANK, text, i)
    ensures HasAt(QUOTE, text, i) <==> value.InDouble?
    ensures HasAt(APOSTROPHE, text, i) <==> value.InSingle?
  {
    AtElements(text, i, value.Text() + (trail + CommentText(comment)));
    if value.Text() + (trail + CommentText(comment)) != [] {
      assert text[i + 0] == (value.Text() + (trail + CommentText(comment)))[0];
    }
  }

  lemma ValueMatches(
    text: string, i: nat, value: Written, trail: string, comment: Option<string>, marks: map<Slot, nat>)
    requires ValueStands(text, i, value, trail, comment)
    ensures MatchAt(EnvFormat.Value(), text, i, marks) ==
      Some(Found(i + |value.Text() + (trail + CommentText(comment))|, ValueMarks(i, value, marks)))
  {
    ValueStarts(text, i, value, trail, comment);
    hide MatchAt, ValueStands, Tail, DoubleBody;
    EitherStep(DoubleQuoted(), Either(SingleQuoted(), Bare()), text, i, marks);
    EitherStep(SingleQuoted(), Bare(), text, i, marks);
    if value.InDouble? {
      DoubleMatches(text, i, value, trail, comment, marks);
    } else {
      NotChar(QUOTE, Mark(DoubleStart, DoubleBody()), text, i, marks);
      if value.InSingle? {
        SingleMatches(text, i, value, trail, comment, marks);
      } else {
        NotChar(APOSTROPHE, Mark(SingleStart, SingleBody()), text, i, marks);
        BareMatches(text, i, value, trail, comment, marks);
      }
    }
  }

  /******* The line *******/

  /** `s` stands at `i`, and the line ends with it. */
  ghost predicate EndsLineAt(text: string, i: nat, s: string) {
    At(text, i, s) && AtLineEnd(text, i + |s|)
  }

  function FromEquals(line: FileLine): string
    requires line.Assigns?
  {
    "=" + (line.after + (line.value.Text() + line.Rest()))
  }

  lemma BlanksRun(text: string, i: nat, s: string, rest: string)
    requires Blanks(s) && At(text, i, s + rest)
    ensures At(text, i + |s|, rest) && forall j :: i <= j < i + |s| ==> BLANK.Has(text[j])
  {
    AtParts(text, i, s, rest);
    AtElements(text, i, s);
    assert forall j :: i <= j < i + |s| ==> text[j] == s[j - i];
  }

  ghost function ValueAt(i: nat, line: FileLine): nat
    requires line.Assigns?
  {
    i + |line.before| + 1 + |line.after|
  }

  lemma EqualsMatches(text: string, i: nat, line: FileLine, marks: map<Slot, nat>)
    requires line.Assigns? && line.WellFormed() && EndsLineAt(text, i, FromEquals(line))
    ensures HasAt(EQUALS, text, i)
    ensures MatchAt(Char(EQUALS, Star(BLANK, EnvFormat.Value())), text, i, marks) ==
      Some(Found(i + |FromEquals(line)|, ValueMarks(i + 1 + |line.after|, line.value, marks)))
  {
    hide MatchAt, Written.Text, CommentText;
    var valued := line.value.Text() + line.Rest();
    AtParts(text, i, "=", line.after + valued);
    AtElements(text, i, "=");
    assert text[i + 0] == "="[0];
    BlanksRun(text, i + 1, line.after, valued);
    var v := i + 1 + |line.after|;
    ValueStarts(text, v, line.value, line.trail, line.comment);
    ValueMatches(text, v, line.value, line.trail, line.comment, marks);
    StarTakesRun(BLANK, EnvFormat.Value(), text, i + 1, v, marks);
    CharStep(EQUALS, Star(BLANK, EnvFormat.Value()), text, i, marks);
  }

  lemma AssignedReads(text: string, i: nat, line: FileLine, marks: map<Slot, nat>)
    requires line.Assigns? && line.WellFormed() && EndsLineAt(text, i, line.before + FromEquals(line))
    ensures i < |text| && !HasAt(KEY, text, i)
    ensures MatchAt(Assigned(), text, i, marks) ==
      Some(Found(i + |line.before + FromEquals(line)|, ValueMarks(ValueAt(i, line), line.value, marks)))
  {
    hide MatchAt, FromEquals;
    BlanksRun(text, i, line.before, FromEquals(line));
    var k := i + |line.before|;
    EqualsMatches(text, k, line, marks);
    StarTakesRun(BLANK, Char(EQUALS, Star(BLANK, EnvFormat.Value())), text, i, k, marks);
  }

  ghost function MarksOf(i: nat, line: FileLine): map<Slot, nat>
    requires line.Assigns?
  {
    var end := i + |line.key|;
    ValueMarks(ValueAt(end, line), line.value, map[KeyStart := i][KeyEnd := end])
  }

  lemma KeyedReads(text: string, i: nat, line: FileLine)
    requires line.Assigns? && line.WellFormed() && EndsLineAt(text, i, line.FromKey())
    ensures HasAt(KEY, text, i) && !HasAt(BLANK, text, i)
    ensures MatchAt(Keyed(), text, i, map[]) == Some(Found(i + |line.FromKey()|, MarksOf(i, line)))
  {
    hide MatchAt, Assigned, FromEquals, ValueMarks;
    FromKeyParts(line);
    AtParts(text, i, line.key, line.before + FromEquals(line));
    KeyAt(text, i, line.key);
    var end := i + |line.key|;
    var marks: map<Slot, nat> := map[KeyStart := i];
    AssignedReads(text, end, line, marks[KeyEnd := end]);
    MarkStep(KeyEnd, Assigned(), text, end, marks);
    StarTakesRun(KEY, Mark(KeyEnd, Assigned()), text, i + 1, end, marks);
    CharStep(KEY, Star(KEY, Mark(KeyEnd, Assigned())), text, i, marks);
    MarkStep(KeyStart, Char(KEY, Star(KEY, Mark(KeyEnd, Assigned()))), text, i, map[]);
  }

  lemma FromKeyParts(line: FileLine)
    requires line.Assigns?
    ensures line.FromKey() == line.key + (line.before + FromEquals(line))
  {
  }

  lemma ExportedReads(text: string, i: nat, blanks: string, line: FileLine)
    requires line.Assigns? && line.WellFormed() && Blanks(blanks) && blanks != []
    requires EndsLineAt(text, i, "export" + (blanks + line.FromKey()))
    ensures !HasAt(BLANK, text, i)
    ensures MatchAt(Exported(), text, i, map[]) ==
      Some(Found(i + |"export" + (blanks + line.FromKey())|, MarksOf(i + 6 + |blanks|, line)))
  {
    hide MatchAt, FileLine.FromKey, MarksOf, Keyed;
    AtParts(text, i, "export", blanks + line.FromKey());
    AtElements(text, i, "export");
    assert text[i + 0] == "export"[0];
    BlanksRun(text, i + 6, blanks, line.FromKey());
    var q := i + 6 + |blanks|;
    KeyedReads(text, q, line);
    StarTakesRun(BLANK, Keyed(), text, i + 7, q, map[]);
    CharStep(BLANK, Star(BLANK, Keyed()), text, i + 6, map[]);
    CharsMatch("export", Char(BLANK, Star(BLANK, Keyed())), text, i, map[]);
  }

  /** Without the word the key is never taken for it, not even if it is that
      word: what follows it is no key. */
  lemma NotExported(text: string, i: nat, key: string, before: string)
    requires ValidKey(key) && Blanks(before) && At(text, i, key + (before + "="))
    ensures MatchAt(Exported(), text, i, map[]) == None
  {
    AtParts(text, i, key, before + "=");
    KeyAt(text, i, key);
    var end := i + |key|;
    AtElements(text, end, before + "=");
    assert forall j :: end <= j <= end + |before| ==> text[j] == (before + "=")[j - end];
    if MatchAt(Exported(), text, i, map[]).Some? {
      var word := "export";
      CharsSplit(word, Char(BLANK, Star(BLANK, Keyed())), text, i, map[]);
      KeyAt(text, i, word);
      NotExportedAfter(text, i + 6, end, before);
    }
  }

  lemma NotExportedAfter(text: string, i: nat, end: nat, before: string)
    requires i < |text| && end + |before| < |text|
    requires forall j :: end <= j < end + |before| ==> IsBlank(text[j])
    requires text[end + |before|] == '='
    requires i >= end || HasAt(KEY, text, i)
    requires end <= i <= end + |before| || i < end
    ensures MatchAt(Char(BLANK, Star(BLANK, Keyed())), text, i, map[]) == None
  {
    if MatchAt(Char(BLANK, Star(BLANK, Keyed())), text, i, map[]).Some? {
      hide MatchAt;
      CharNeedsOne(BLANK, Star(BLANK, Keyed()), text, i, map[]);
      CharStep(BLANK, Star(BLANK, Keyed()), text, i, map[]);
      var j := StarSplits(BLANK, Keyed(), text, i + 1, map[]);
      KeyedNeedsKey(text, j);
    }
  }

  lemma KeyedNeedsKey(text: string, i: nat)
    requires i <= |text| && MatchAt(Keyed(), text, i, map[]).Some?
    ensures HasAt(KEY, text, i)
  {
    hide MatchAt, Assigned;
    MarkStep(KeyStart, Char(KEY, Star(KEY, Mark(KeyEnd, Assigned()))), text, i, map[]);
    CharNeedsOne(KEY, Star(KEY, Mark(KeyEnd, Assigned())), text, i, map[KeyStart := i]);
  }

  function AfterIndent(line: FileLine): string
    requires line.Assigns?
  {
    if line.exported.Some? then "export" + (line.exported.value + line.FromKey()) else line.FromKey()
  }

  ghost function KeyAtOf(i: nat, line: FileLine): nat
    requires line.Assigns?
  {
    i + |line.indent| + if line.exported.Some? then 6 + |line.exported.value| else 0
  }

  lemma EitherReads(text: string, i: nat, line: FileLine)
    requires line.Assigns? && line.WellFormed() && EndsLineAt(text, i, AfterIndent(line))
    ensures !HasAt(BLANK, text, i)
    ensures MatchAt(Either(Exported(), Keyed()), text, i, map[]) ==
      Some(Found(i + |AfterIndent(line)|, MarksOf(i + (KeyAtOf(0, line) - |line.indent|), line)))
  {
    hide MatchAt, MarksOf, FileLine.FromKey, FromEquals, Exported, Keyed;
    EitherStep(Exported(), Keyed(), text, i, map[]);
    if line.exported.Some? {
      ExportedReads(text, i, line.exported.value, line);
    } else {
      KeyedReads(text, i, line);
      KeyThenEquals(text, i, line);
      NotExported(text, i, line.key, line.before);
    }
  }

  lemma KeyThenEquals(text: string, i: nat, line: FileLine)
    requires line.Assigns? && At(text, i, line.FromKey())
    ensures At(text, i, line.key + (line.before + "="))
  {
    var rest := line.after + (line.value.Text() + line.Rest());
    assert line.FromKey() == (line.key + (line.before + "=")) + rest;
    AtParts(text, i, line.key + (line.before + "="), rest);
  }

  /** A line that assigns is matched whole. */
  lemma LineMatches(text: string, i: nat, line: FileLine)
    requires line.Assigns? && line.WellFormed() && EndsLineAt(text, i, line.Text()) && AtLineStart(text, i)
    ensures MatchAt(Entry(), text, i, map[]) == Some(Found(i + |line.Text()|, MarksOf(KeyAtOf(i, line), line)))
  {
    hide MatchAt, MarksOf, FileLine.FromKey, Exported, Keyed, AfterIndent;
    assert line.Text() == line.indent + AfterIndent(line) by {
      IndentSplits(line);
    }
    BlanksRun(text, i, line.indent, AfterIndent(line));
    var p := i + |line.indent|;
    EitherReads(text, p, line);
    StarTakesRun(BLANK, Either(Exported(), Keyed()), text, i, p, map[]);
    LineStartStep(Star(BLANK, Either(Exported(), Keyed())), text, i, map[]);
  }

  lemma IndentSplits(line: FileLine)
    requires line.Assigns?
    ensures line.Text() == line.indent + AfterIndent(line)
  {
  }

  /******* Reading back *******/

  lemma UnescapeOne(piece: Piece, rest: string)
    requires piece.WellFormed()
    ensures Unescape(piece.Spelled() + rest) == piece.Meant() + Unescape(rest)
  {
    match piece
    case Plain(c) => assert ([c] + rest)[0] == c && ([c] + rest)[1..] == rest;
    case Slashed(c) => UnescapeSlashed(c, rest);
  }

  lemma UnescapeSlashed(c: char, rest: string)
    ensures Unescape(['\\', c] + rest) == Slashed(c).Meant() + Unescape(rest)
  {
    var s, tail := ['\\', c] + rest, [c] + rest;
    assert s[0] == '\\' && s[1] == c && s[1..] == tail && s[2..] == rest;
    if c == '\n' {
      assert tail[0] == '\n' && tail[1..] == rest;
    }
  }

  lemma {:induction false} UnescapeMeans(pieces: seq<Piece>)
    requires forall n :: 0 <= n < |pieces| ==> pieces[n].WellFormed()
    ensures Unescape(Spelling(pieces)) == Meaning(pieces)
  {
    if pieces != [] {
      hide Unescape, Piece.Spelled, Piece.Meant;
      UnescapeMeans(pieces[1..]);
      UnescapeOne(pieces[0], Spelling(pieces[1..]));
    }
  }

  lemma ValueStandsAt(text: string, i: nat, line: FileLine)
    requires line.Assigns? && At(text, i, line.FromKey())
    ensures At(text, i, line.key) && At(text, ValueAt(i + |line.key|, line), line.value.Text())
  {
    var valued := line.value.Text() + line.Rest();
    hide FileLine.Rest, Written.Text;
    AtParts(text, i, line.key, line.before + ("=" + (line.after + valued)));
    var j := i + |line.key|;
    AtParts(text, j, line.before, "=" + (line.after + valued));
    AtParts(text, j + |line.before|, "=", line.after + valued);
    AtParts(text, j + |line.before| + 1, line.after, valued);
    AtParts(text, ValueAt(j, line), line.value.Text(), line.Rest());
  }

  lemma KeyReadsBack(text: string, i: nat, line: FileLine, end: nat)
    requires line.Assigns? && At(text, i, line.key)
    ensures KeyOf(text, Found(end, MarksOf(i, line))) == line.key
  {
    hide Spelling;
    var marks := MarksOf(i, line);
    assert marks[KeyStart] == i && marks[KeyEnd] == i + |line.key|;
  }

  lemma MarksReadBack(text: string, i: nat, line: FileLine, end: nat)
    requires line.Assigns? && line.WellFormed() && At(text, i, line.FromKey())
    ensures var found := Found(end, MarksOf(i, line));
      KeyOf(text, found) == line.key && ValueOf(text, found) == line.value.Value()
  {
    hide KeyOf, ValueOf, ValueMarks, Written.Value, Written.Text, At, FileLine.FromKey;
    ValueStandsAt(text, i, line);
    KeyReadsBack(text, i, line, end);
    var j := i + |line.key|;
    ValueReadsBack(text, ValueAt(j, line), line.value, MarksOf(i, line), map[KeyStart := i][KeyEnd := j], end);
  }

  lemma GroupAt(text: string, found: Found<Slot>, start: Slot, end: Slot, i: nat, s: string)
    requires start in found.marks && end in found.marks && found.marks[start] == i && found.marks[end] == i + |s|
    requires At(text, i, s)
    ensures Group(text, found, start, end) == Some(s)
  {
  }

  lemma NoGroup(text: string, found: Found<Slot>, start: Slot, end: Slot)
    requires start !in found.marks
    ensures Group(text, found, start, end) == None
  {
  }

  lemma ValueReadsBack(
    text: string, i: nat, value: Written, marks: map<Slot, nat>, before: map<Slot, nat>, end: nat)
    requires value.WellFormed() && At(text, i, value.Text())
    requires marks == ValueMarks(i, value, before) && before.Keys == {KeyStart, KeyEnd}
    ensures ValueOf(text, Found(end, marks)) == value.Value()
  {
    hide Unescape, Spelling, Meaning, Group, At;
    var found := Found(end, marks);
    assert DoubleStart !in before && SingleStart !in before;
    match value
    case BareText(bare) =>
      NoGroup(text, found, DoubleStart, DoubleEnd);
      NoGroup(text, found, SingleStart, SingleEnd);
      GroupAt(text, found, BareStart, BareEnd, i, bare);
    case InSingle(quoted) =>
      AtParts(text, i, "'", quoted + "'");
      AtParts(text, i + 1, quoted, "'");
      NoGroup(text, found, DoubleStart, DoubleEnd);
      GroupAt(text, found, SingleStart, SingleEnd, i + 1, quoted);
    case InDouble(pieces) =>
      AtParts(text, i, "\"", Spelling(pieces) + "\"");
      AtParts(text, i + 1, Spelling(pieces), "\"");
      GroupAt(text, found, DoubleStart, DoubleEnd, i + 1, Spelling(pieces));
      UnescapeMeans(pieces);
  }

  /******* The file *******/

  lemma LineReadsAs(text: string, i: nat, line: FileLine)
    requires line.Assigns? && line.WellFormed() && EndsLineAt(text, i, line.Text()) && AtLineStart(text, i)
    ensures line.Text() != []
    ensures var found := MatchAt(Entry(), text, i, map[]);
      && found.Some? && found.value.end == i + |line.Text()|
      && KeyOf(text, found.value) == line.key && ValueOf(text, found.value) == line.value.Value()
  {
    hide MatchAt, MarksOf, KeyOf, ValueOf, FileLine.FromKey, Entry;
    LineMatches(text, i, line);
    IndentSplits(line);
    AtParts(text, i, line.indent, AfterIndent(line));
    if line.exported.Some? {
      AtParts(text, i + |line.indent|, "export", line.exported.value + line.FromKey());
      AtParts(text, i + |line.indent| + 6, line.exported.value, line.FromKey());
    }
    MarksReadBack(text, KeyAtOf(i, line), line, i + |line.Text()|);
    FromKeyParts(line);
  }

  lemma EitherNeedsKey(text: string, i: nat)
    requires i <= |text| && MatchAt(Either(Exported(), Keyed()), text, i, map[]).Some?
    ensures HasAt(KEY, text, i)
  {
    hide MatchAt, Keyed;
    EitherStep(Exported(), Keyed(), text, i, map[]);
    if MatchAt(Exported(), text, i, map[]).Some? {
      CharsSplit("export", Char(BLANK, Star(BLANK, Keyed())), text, i, map[]);
      KeyAt(text, i, "export");
    } else {
      KeyedNeedsKey(text, i);
    }
  }

  lemma EntryNeedsKey(text: string, i: nat) returns (j: nat)
    requires i <= |text| && MatchAt(Entry(), text, i, map[]).Some?
    ensures i <= j && HasAt(KEY, text, j) && forall k :: i <= k < j && k < |text| ==> IsBlank(text[k])
  {
    hide MatchAt, Exported, Keyed;
    LineStartStep(Star(BLANK, Either(Exported(), Keyed())), text, i, map[]);
    j := StarSplits(BLANK, Either(Exported(), Keyed()), text, i, map[]);
    EitherNeedsKey(text, j);
    forall k | i <= k < j && k < |text| ensures IsBlank(text[k]) {
      BlankHas(text[k]);
    }
  }

  /** A blank or comment line starts no match. */
  lemma NothingMatches(text: string, i: nat, line: FileLine)
    requires line.AssignsNothing? && line.WellFormed() && EndsLineAt(text, i, line.Text())
    ensures MatchAt(Entry(), text, i, map[]) == None
  {
    hide MatchAt, Entry;
    var end := i + |line.indent|;
    BlanksRun(text, i, line.indent, CommentText(line.comment));
    AtElements(text, end, CommentText(line.comment));
    assert line.comment.Some? ==> text[end + 0] == '#';
    if MatchAt(Entry(), text, i, map[]).Some? {
      var j := EntryNeedsKey(text, i);
      BlanksAreNoKeys(text, i, end, j);
    }
  }

  lemma BlanksAreNoKeys(text: string, i: nat, end: nat, j: nat)
    requires i <= end <= |text| && (forall k :: i <= k < end ==> BLANK.Has(text[k]))
    requires end == |text| || text[end] == '\n' || text[end] == '#'
    requires i <= j && forall k :: i <= k < j && k < |text| ==> IsBlank(text[k])
    ensures !HasAt(KEY, text, j)
  {
    if j < end {
      BlankHas(text[j]);
    }
  }

  lemma {:induction false} SkipsTo(text: string, i: nat, j: nat)
    requires i <= j <= |text| && forall k :: i <= k < j ==> MatchAt(Entry(), text, k, map[]) == None
    ensures FindAll(Entry(), text, i) == FindAll(Entry(), text, j)
    decreases j - i
  {
    hide MatchAt, Entry;
    if i < j {
      SkipsTo(text, i + 1, j);
    }
  }

  lemma NotAtLineStart(text: string, i: nat)
    requires 0 < i <= |text| && text[i - 1] != '\n'
    ensures MatchAt(Entry(), text, i, map[]) == None
  {
    hide Exported, Keyed;
    LineStartStep(Star(BLANK, Either(Exported(), Keyed())), text, i, map[]);
  }

  lemma LastOfConcat(s: string, t: string)
    ensures t != [] ==> (s + t)[|s + t| - 1] == t[|t| - 1]
    ensures t == [] ==> s + t == s
  {
  }

  ghost predicate EndsInLine(s: string) {
    s != [] && s[|s| - 1] != '\n'
  }

  lemma FromEqualsEndsInLine(line: FileLine)
    requires line.Assigns? && line.WellFormed()
    ensures EndsInLine(FromEquals(line))
  {
    var value, rest := line.value.Text(), line.Rest();
    LastOfConcat("=", line.after + (value + rest));
    LastOfConcat(line.after, value + rest);
    LastOfConcat(value, rest);
    LastOfConcat(line.trail, CommentText(line.comment));
  }

  lemma LastInLine(line: FileLine)
    requires line.Assigns? && line.WellFormed()
    ensures EndsInLine(line.Text())
  {
    hide FileLine.FromKey, FileLine.Text, FromEquals, FileLine.WellFormed, AfterIndent, EndsInLine;
    FromEqualsEndsInLine(line);
    FromKeyParts(line);
    EndsWith(line.before, FromEquals(line));
    EndsWith(line.key, line.before + FromEquals(line));
    IndentSplits(line);
    AfterIndentEnds(line);
    EndsWith(line.indent, AfterIndent(line));
  }

  lemma EndsWith(s: string, t: string)
    requires EndsInLine(t)
    ensures EndsInLine(s + t)
  {
  }

  lemma AfterIndentEnds(line: FileLine)
    requires line.Assigns? && EndsInLine(line.FromKey())
    ensures EndsInLine(AfterIndent(line))
  {
    hide FileLine.FromKey, EndsInLine;
    if line.exported.Some? {
      EndsWith(line.exported.value, line.FromKey());
      EndsWith("export", line.exported.value + line.FromKey());
    }
  }

  lemma FoundFirst(text: string, i: nat)
    requires i <= |text| && MatchAt(Entry(), text, i, map[]).Some? && MatchAt(Entry(), text, i, map[]).value.end > i
    ensures var found := MatchAt(Entry(), text, i, map[]).value;
      FindAll(Entry(), text, i) == [found] + FindAll(Entry(), text, found.end)
  {
  }

  /** The first line of the file, and where the next one starts. */
  lemma FirstLine(text: string, i: nat, lines: seq<FileLine>, closed: bool) returns (next: nat)
    requires i <= |text| && text[i..] == FileText(lines, closed) && lines != []
    ensures var end := i + |lines[0].Text()|;
      && EndsLineAt(text, i, lines[0].Text())
      && end <= next <= |text| && text[next..] == FileText(lines[1..], closed)
      && (next == end || (next == end + 1 && text[end] == '\n'))
      && (lines[1..] != [] ==> next == end + 1)
  {
    hide FileLine.Text;
    var line, newline := lines[0].Text(), if |lines| > 1 || closed then "\n" else "";
    var end := i + |line|;
    next := end + |newline|;
    SuffixParts(text, i, line, newline + FileText(lines[1..], closed));
    SuffixParts(text, end, newline, FileText(lines[1..], closed));
    if newline == "\n" {
      assert text[end] == text[end..end + 1][0];
    } else {
      assert lines[1..] == [];
    }
  }

  lemma SuffixParts(text: string, i: nat, s: string, t: string)
    requires i <= |text| && text[i..] == s + t
    ensures At(text, i, s) && text[i + |s|..] == t
  {
    assert text[i..i + |s|] == (s + t)[..|s|];
    assert text[i + |s|..] == (s + t)[|s|..];
  }

  /** From the start of any line on, exactly what the lines assign is read. */
  lemma {:induction false} RestIsRead(values: Values, text: string, i: nat, lines: seq<FileLine>, closed: bool)
    requires values.Valid() && i <= |text| && text[i..] == FileText(lines, closed)
    requires lines != [] ==> AtLineStart(text, i)
    requires forall n :: 0 <= n < |lines| ==> lines[n].WellFormed()
    ensures Assign(values, text, FindAll(Entry(), text, i)) == Entered(values, lines)
    decreases |lines|
  {
    hide MatchAt, FindAll, Entry, Assign, FileLine.Text, FileLine.WellFormed, KeyOf, ValueOf, EndsLineAt;
    if lines == [] {
      NothingAtEnd(text);
      AssignNothing(values, text);
    } else {
      var line, end := lines[0], i + |lines[0].Text()|;
      var next := FirstLine(text, i, lines, closed);
      assert line.WellFormed();
      assert forall n :: 0 <= n < |lines[1..]| ==> lines[1..][n] == lines[n + 1];
      if line.Assigns? {
        LineReadsAs(text, i, line);
        FoundFirst(text, i);
        NewlineSkipped(text, i, line, next);
        var found := MatchAt(Entry(), text, i, map[]).value;
        AssignNext(values, text, found, FindAll(Entry(), text, end));
        RestIsRead(values.Put(line.key, line.value.Value()), text, next, lines[1..], closed);
      } else {
        LineSkipped(text, i, line, next);
        RestIsRead(values, text, next, lines[1..], closed);
      }
    }
  }

  lemma NewlineSkipped(text: string, i: nat, line: FileLine, next: nat)
    requires line.Assigns? && line.WellFormed() && EndsLineAt(text, i, line.Text())
    requires next == i + |line.Text()| || (next == i + |line.Text()| + 1 && next <= |text|)
    ensures FindAll(Entry(), text, i + |line.Text()|) == FindAll(Entry(), text, next)
  {
    hide FileLine.Text, FindAll, MatchAt, Entry;
    var end := i + |line.Text()|;
    LastInLine(line);
    AtElements(text, i, line.Text());
    assert text[i + (|line.Text()| - 1)] != '\n';
    NotAtLineStart(text, end);
    SkipsTo(text, end, next);
  }

  lemma LineSkipped(text: string, i: nat, line: FileLine, next: nat)
    requires line.AssignsNothing? && line.WellFormed() && EndsLineAt(text, i, line.Text())
    requires next == i + |line.Text()| || (next == i + |line.Text()| + 1 && next <= |text|)
    ensures FindAll(Entry(), text, i) == FindAll(Entry(), text, next)
  {
    hide FindAll, MatchAt, Entry;
    var s := line.Text();
    AtElements(text, i, s);
    NothingMatches(text, i, line);
    forall k | i < k <= i + |s| ensures MatchAt(Entry(), text, k, map[]) == None {
      assert text[i + (k - 1 - i)] == s[k - 1 - i];
      NotAtLineStart(text, k);
    }
    SkipsTo(text, i, next);
  }

  /** Whatever such lines a file holds, each key is read with the value written
      for it, a later line winning, and the keys in the order of the lines. */
  lemma HandWrittenReads(lines: seq<FileLine>, closed: bool)
    requires forall n :: 0 <= n < |lines| ==> lines[n].WellFormed()
    ensures Parsed(FileText(lines, closed)) == Entered(Dict([], map[]), lines)
  {
    var text := FileText(lines, closed);
    assert text[0..] == text;
    RestIsRead(Dict([], map[]), text, 0, lines, closed);
  }

  ghost predicate LastAssigns(lines: seq<FileLine>, key: string, n: nat) {
    && n < |lines| && lines[n].Assigns? && lines[n].key == key
    && forall m :: n < m < |lines| && lines[m].Assigns? ==> lines[m].key != key
  }

  /** A key has the value of the last line that assigns it. */
  lemma {:induction false} EnteredMeaning(values: Values, lines: seq<FileLine>, key: string)
    requires values.Valid()
    ensures var entered := Entered(values, lines).at;
      && (forall n: nat :: LastAssigns(lines, key, n) ==> key in entered && entered[key] == lines[n].value.Value())
      && (NeverAssigns(lines, key) ==>
            (key in entered <==> key in values.at) && (key in entered ==> entered[key] == values.at[key]))
    decreases |lines|
  {
    if lines != [] {
      var rest := lines[1..];
      var next := if lines[0].Assigns? then values.Put(lines[0].key, lines[0].value.Value()) else values;
      EnteredMeaning(next, rest, key);
      assert forall m :: 0 <= m < |rest| ==> rest[m] == lines[m + 1];
      forall n: nat | LastAssigns(lines, key, n)
        ensures if n == 0 then NeverAssigns(rest, key) else LastAssigns(rest, key, n - 1)
      {
      }
    }
  }

  ghost predicate NeverAssigns(lines: seq<FileLine>, key: string) {
    forall m :: 0 <= m < |lines| && lines[m].Assigns? ==> lines[m].key != key
  }
}
