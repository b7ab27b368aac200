/** k8s/seed/scripts/cortexgrid_head.py, `parse_env` and `format_env`: a printer
    of .env lines, and the regular expression that reads them back. */
module EnvFormat {
  import opened Common
  import opened Regex

  datatype Slot = KeyStart | KeyEnd | DoubleStart | DoubleEnd | SingleStart | SingleEnd | BareStart | BareEnd

  const KEY_CHARS: set<char> :=
    set c: char | 'A' <= c <= 'Z' || 'a' <= c <= 'z' || '0' <= c <= '9' || c == '_' || c == '.' || c == '-'
  const BLANK := In({' ', '\t'})
  const KEY := In(KEY_CHARS)
  const EQUALS := In({'='})
  const QUOTE := In({'"'})
  const APOSTROPHE := In({'\''})
  const BACKSLASH := In({'\\'})
  const PLAIN := NotIn({'"', '\\'})
  const ANY := NotIn({})
  const IN_LINE := NotIn({'\n'})

  /******* The pattern of one entry *******/

  function Tail(): Pattern<Slot> {
    Star(BLANK, Either(Char(In({'#'}), Star(IN_LINE, LineEnd(Accept))), LineEnd(Accept)))
  }

  function DoubleQuoted(): Pattern<Slot> {
    Char(QUOTE, Mark(DoubleStart, DoubleBody()))
  }

  function DoubleBody(): Pattern<Slot> {
    StarEither(PLAIN, BACKSLASH, ANY, Mark(DoubleEnd, Char(QUOTE, Tail())))
  }

  function SingleQuoted(): Pattern<Slot> {
    Char(APOSTROPHE, Mark(SingleStart, Star(NotIn({'\''}), Mark(SingleEnd, Char(APOSTROPHE, Tail())))))
  }

  function Bare(): Pattern<Slot> {
    Mark(BareStart, LazyStar(NotIn({'\n', '#'}), Mark(BareEnd, Tail())))
  }

  function Value(): Pattern<Slot> {
    Either(DoubleQuoted(), Either(SingleQuoted(), Bare()))
  }

  function Assigned(): Pattern<Slot> {
    Star(BLANK, Char(EQUALS, Star(BLANK, Value())))
  }

  function Keyed(): Pattern<Slot> {
    Mark(KeyStart, Char(KEY, Star(KEY, Mark(KeyEnd, Assigned()))))
  }

  function Exported(): Pattern<Slot> {
    Chars("export", Char(BLANK, Star(BLANK, Keyed())))
  }

  function Entry(): Pattern<Slot> {
    LineStart(Star(BLANK, Either(Exported(), Keyed())))
  }

  /******* parse_env *******/

  function Group(text: string, found: Found<Slot>, start: Slot, end: Slot): Option<string> {
    if start in found.marks && end in found.marks && found.marks[start] <= found.marks[end] <= |text|
    then Some(text[found.marks[start]..found.marks[end]])
    else None
  }

  /** The substitution on backslash and one more character of the same line. */
  function Unescape(s: string): string {
    if s == [] then []
    else if s[0] == '\\' && |s| >= 2 && s[1] != '\n' then Unescaped(s[1]) + Unescape(s[2..])
    else [s[0]] + Unescape(s[1..])
  }

  function Unescaped(c: char): string {
    if c == 'n' then "\n" else if c == 'r' then "\r" else if c == '"' then "\"" else if c == '\\' then "\\"
    else ['\\', c]
  }

  function KeyOf(text: string, found: Found<Slot>): string {
    Group(text, found, KeyStart, KeyEnd).GetOr("")
  }

  function ValueOf(text: string, found: Found<Slot>): string {
    var double := Group(text, found, DoubleStart, DoubleEnd);
    var single := Group(text, found, SingleStart, SingleEnd);
    if double.Some? then Unescape(double.value)
    else if single.Some? then single.value
    else Group(text, found, BareStart, BareEnd).GetOr("")
  }

  type Values = Dict<string, string>

  function Assign(values: Values, text: string, matches: seq<Found<Slot>>): (after: Values)
    requires values.Valid()
    ensures after.Valid()
    decreases |matches|
  {
    if matches == [] then values
    else Assign(values.Put(KeyOf(text, matches[0]), ValueOf(text, matches[0])), text, matches[1..])
  }

  function Parsed(text: string): (values: Values)
    ensures values.Valid()
  {
    Assign(Dict([], map[]), text, FindAll(Entry(), text, 0))
  }

  method ParseEnv(text: string) returns (values: Values)
    ensures values.Valid() && values == Parsed(text)
  {
    var matches := FindAll(Entry(), text, 0);
    values := Dict([], map[]);
    var i := 0;
    while i < |matches|
      invariant 0 <= i <= |matches| && values.Valid()
      invariant Assign(values, text, matches[i..]) == Parsed(text)
    {
      values := values.Put(KeyOf(text, matches[i]), ValueOf(text, matches[i]));
      i := i + 1;
    }
  }

  /******* format_env *******/

  /** str.replace for a one-character pattern. */
  function Replace(s: string, c: char, replacement: string): string {
    if s == [] then [] else (if s[0] == c then replacement else [s[0]]) + Replace(s[1..], c, replacement)
  }

  /** The four replacements, chained as the source chains them. */
  function Escape(value: string): string {
    Replace(Replace(Replace(Replace(value, '\\', "\\\\"), '"', "\\\""), '\n', "\\n"), '\r', "\\r")
  }

  function Line(key: string, value: string): string {
    key + "=\"" + Escape(value) + "\"\n"
  }

  function Formatted(values: Values, count: nat): string
    requires values.Valid() && count <= |values.keys|
  {
    if count == 0 then []
    else
      var key := values.keys[count - 1];
      assert key in values.keys;
      Formatted(values, count - 1) + Line(key, values.at[key])
  }

  method FormatEnv(values: Values) returns (text: string)
    requires values.Valid()
    ensures text == Formatted(values, |values.keys|)
  {
    text := [];
    var i := 0;
    while i < |values.keys|
      invariant 0 <= i <= |values.keys|
      invariant text == Formatted(values, i)
    {
      var key := values.keys[i];
      assert key in values.keys;
      text := text + Line(key, values.at[key]);
      i := i + 1;
    }
  }

  /******* Escaping undone *******/

  function Escaped(c: char): string {
    if c == '\\' then "\\\\" else if c == '"' then "\\\"" else if c == '\n' then "\\n" else if c == '\r' then "\\r"
    else [c]
  }

  function EscapeEach(value: string): string {
    if value == [] then [] else Escaped(value[0]) + EscapeEach(value[1..])
  }

  lemma {:induction false} ReplaceConcat(s: string, t: string, c: char, replacement: string)
    ensures Replace(s + t, c, replacement) == Replace(s, c, replacement) + Replace(t, c, replacement)
  {
    if s == [] {
      assert s + t == t;
    } else {
      assert (s + t)[1..] == s[1..] + t;
      ReplaceConcat(s[1..], t, c, replacement);
    }
  }

  /** The chained replacements never touch what an earlier one wrote: together
      they escape character by character. */
  lemma {:induction false} EscapeIsPerCharacter(value: string)
    ensures Escape(value) == EscapeEach(value)
  {
    if value != [] {
      var head, tail := [value[0]], value[1..];
      assert value == head + tail;
      ReplaceConcat(head, tail, '\\', "\\\\");
      var head1, tail1 := Replace(head, '\\', "\\\\"), Replace(tail, '\\', "\\\\");
      ReplaceConcat(head1, tail1, '"', "\\\"");
      var head2, tail2 := Replace(head1, '"', "\\\""), Replace(tail1, '"', "\\\"");
      ReplaceConcat(head2, tail2, '\n', "\\n");
      var head3, tail3 := Replace(head2, '\n', "\\n"), Replace(tail2, '\n', "\\n");
      ReplaceConcat(head3, tail3, '\r', "\\r");
      EscapedCharacter(value[0]);
      EscapeIsPerCharacter(tail);
    }
  }

  lemma EscapedCharacter(c: char)
    ensures Escape([c]) == Escaped(c)
  {
    if c == '\\' {
      ReplaceTwo('\\', '\\', '"', "\\\"");
      ReplaceTwo('\\', '\\', '\n', "\\n");
      ReplaceTwo('\\', '\\', '\r', "\\r");
    } else if c == '"' {
      ReplaceTwo('\\', '"', '\n', "\\n");
      ReplaceTwo('\\', '"', '\r', "\\r");
    } else if c == '\n' {
      assert Replace([c], '\\', "\\\\") == [c] && Replace([c], '"', "\\\"") == [c];
      assert Replace([c], '\n', "\\n") == "\\n" == ['\\', 'n'];
      ReplaceTwo('\\', 'n', '\r', "\\r");
    }
  }

  lemma ReplaceTwo(a: char, b: char, c: char, replacement: string)
    ensures Replace([a, b], c, replacement) == Replace([a], c, replacement) + Replace([b], c, replacement)
  {
    assert [a, b] == [a] + [b];
    ReplaceConcat([a], [b], c, replacement);
  }

  lemma {:induction false} UnescapeEscape(value: string)
    ensures Unescape(EscapeEach(value)) == value
  {
    if value != [] {
      var c, rest := value[0], EscapeEach(value[1..]);
      UnescapeEscape(value[1..]);
      if |Escaped(c)| == 2 {
        var s := EscapeEach(value);
        assert s[0] == '\\' && s[1] != '\n' && s[2..] == rest;
        assert Unescaped(s[1]) == [c];
      } else {
        assert EscapeEach(value)[0] == c && EscapeEach(value)[1..] == rest;
      }
      assert value == [c] + value[1..];
    }
  }
}
