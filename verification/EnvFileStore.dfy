/** k8s/seed/scripts/cortexgrid_head.py, `EnvFileStore`: a secrets file that
    behaves as a map, each write rewriting the whole file. */
module EnvFileStore {
  import opened Common
  import opened Sorting
  import opened EnvFormat
  import opened EnvRoundTrip
  import H = EnvHandWritten

  /** Reading in text mode: every line ending becomes a newline. */
  function UniversalNewlines(raw: string): string {
    if raw == [] then []
    else if raw[0] == '\r' && |raw| >= 2 && raw[1] == '\n' then UniversalNewlines(raw[1..])
    else if raw[0] == '\r' then ['\n'] + UniversalNewlines(raw[1..])
    else [raw[0]] + UniversalNewlines(raw[1..])
  }

  function Read(file: Option<string>): (values: Values)
    ensures values.Valid()
  {
    if file.Some? then Parsed(UniversalNewlines(file.value)) else Dict([], map[])
  }

  /** `pop`: the entries but one, in order. */
  function Without(values: Values, id: string): (rest: Values)
    requires values.Valid()
    ensures rest.Valid()
    ensures rest.at == values.at - {id}
  {
    var others := (key: string) => key != id;
    FilterKeepsDistinct(values.keys, others);
    Dict(Filter(values.keys, others), values.at - {id})
  }

  /******* What a write leaves to be read *******/

  predicate NoReturn(s: string) {
    forall i :: 0 <= i < |s| ==> s[i] != '\r'
  }

  lemma {:induction false} NewlinesUnchanged(raw: string)
    requires NoReturn(raw)
    ensures UniversalNewlines(raw) == raw
  {
    if raw != [] {
      NewlinesUnchanged(raw[1..]);
      assert raw == [raw[0]] + raw[1..];
    }
  }

  lemma {:induction false} EscapeHasNoReturn(value: string)
    ensures NoReturn(EscapeEach(value))
  {
    if value != [] {
      EscapeHasNoReturn(value[1..]);
    }
  }

  lemma {:induction false} FormattedHasNoReturn(values: Values, count: nat)
    requires values.Valid() && ValidKeys(values) && count <= |values.keys|
    ensures NoReturn(Formatted(values, count))
  {
    if count > 0 {
      var key := values.keys[count - 1];
      assert key in values.keys;
      FormattedHasNoReturn(values, count - 1);
      EscapeIsPerCharacter(values.at[key]);
      EscapeHasNoReturn(values.at[key]);
      assert NoReturn(key) by {
        assert forall i :: 0 <= i < |key| ==> key[i] in KEY_CHARS;
      }
      assert NoReturn(Line(key, values.at[key]));
    }
  }

  /** What is written is what is read next, newline translation included. */
  lemma WriteThenRead(values: Values)
    requires values.Valid() && ValidKeys(values)
    ensures Read(Some(Formatted(values, |values.keys|))) == values
  {
    FormattedHasNoReturn(values, |values.keys|);
    NewlinesUnchanged(Formatted(values, |values.keys|));
    FormatThenParse(values);
  }

  /******* Files written by hand *******/

  datatype Ending = Lf | CrLf | Cr
  {
    function Text(): string {
      match this
      case Lf => "\n"
      case CrLf => "\r\n"
      case Cr => "\r"
    }
  }

  predicate OneLine(s: string) {
    forall i :: 0 <= i < |s| ==> s[i] != '\r' && s[i] != '\n'
  }

  /** Lines with their endings on disk, and what follows the last of them. */
  function OnDisk(lines: seq<string>, endings: seq<Ending>, last: string): string
    requires |lines| == |endings|
  {
    if lines == [] then last else lines[0] + (endings[0].Text() + OnDisk(lines[1..], endings[1..], last))
  }

  function WithNewlines(lines: seq<string>, last: string): string {
    if lines == [] then last else lines[0] + ("\n" + WithNewlines(lines[1..], last))
  }

  lemma {:induction false} NewlinesAfter(s: string, rest: string)
    requires OneLine(s)
    ensures UniversalNewlines(s + rest) == s + UniversalNewlines(rest)
  {
    if s == [] {
      assert s + rest == rest;
    } else {
      assert (s + rest)[0] == s[0] && (s + rest)[1..] == s[1..] + rest;
      NewlinesAfter(s[1..], rest);
      assert s == [s[0]] + s[1..];
    }
  }

  lemma EndingReads(ending: Ending, rest: string)
    requires ending == Cr && rest != [] ==> rest[0] != '\n'
    ensures UniversalNewlines(ending.Text() + rest) == "\n" + UniversalNewlines(rest)
  {
    match ending
    case Lf => NewlineReads(rest);
    case CrLf =>
      assert "\r\n" + rest == "\r" + ("\n" + rest);
      ReturnReads("\n" + rest);
      NewlineReads(rest);
    case Cr => ReturnReads(rest);
  }

  lemma NewlineReads(rest: string)
    ensures UniversalNewlines("\n" + rest) == "\n" + UniversalNewlines(rest)
  {
    assert ("\n" + rest)[1..] == rest;
  }

  lemma ReturnReads(rest: string)
    ensures UniversalNewlines("\r" + rest) ==
      if rest != [] && rest[0] == '\n' then UniversalNewlines(rest) else "\n" + UniversalNewlines(rest)
  {
    assert ("\r" + rest)[1..] == rest;
  }

  /** Each line ending, of whichever kind, is read as one newline. A lone return
      right before a newline would be one ending with it. */
  lemma {:induction false} UniversalNewlinesMeaning(lines: seq<string>, endings: seq<Ending>, last: string)
    requires |lines| == |endings| && OneLine(last) && forall i :: 0 <= i < |lines| ==> OneLine(lines[i])
    requires forall i :: 0 <= i < |lines| - 1 && endings[i] == Cr && lines[i + 1] == [] ==> endings[i + 1] != Lf
    ensures UniversalNewlines(OnDisk(lines, endings, last)) == WithNewlines(lines, last)
  {
    if lines == [] {
      NewlinesAfter(last, []);
      assert last + [] == last;
    } else {
      var rest := OnDisk(lines[1..], endings[1..], last);
      assert forall i :: 0 <= i < |lines| - 1 ==> lines[1..][i] == lines[i + 1] && endings[1..][i] == endings[i + 1];
      UniversalNewlinesMeaning(lines[1..], endings[1..], last);
      NewlinesAfter(lines[0], endings[0].Text() + rest);
      NoNewlineFirst(lines, endings, last);
      EndingReads(endings[0], rest);
    }
  }

  lemma NoNewlineFirst(lines: seq<string>, endings: seq<Ending>, last: string)
    requires |lines| == |endings| > 0 && OneLine(last) && forall i :: 0 <= i < |lines| ==> OneLine(lines[i])
    requires |lines| > 1 && endings[0] == Cr && lines[1] == [] ==> endings[1] != Lf
    ensures var rest := OnDisk(lines[1..], endings[1..], last);
            endings[0] == Cr && rest != [] ==> rest[0] != '\n'
  {
    if |lines| > 1 {
      var next, more := lines[1], endings[1].Text() + OnDisk(lines[1..][1..], endings[1..][1..], last);
      assert OnDisk(lines[1..], endings[1..], last) == next + more;
      assert next != [] ==> (next + more)[0] == next[0];
      assert next == [] ==> next + more == more && more[0] == endings[1].Text()[0];
    }
  }

  /** A file written by hand is read as it is meant, whatever ends its lines;
      a missing one reads as empty. */
  lemma HandWrittenFileReads(raw: string, lines: seq<H.FileLine>, closed: bool)
    requires UniversalNewlines(raw) == H.FileText(lines, closed)
    requires forall n :: 0 <= n < |lines| ==> lines[n].WellFormed()
    ensures Read(Some(raw)) == H.Entered(Dict([], map[]), lines)
    ensures Read(None) == Dict([], map[])
  {
    H.HandWrittenReads(lines, closed);
  }

  lemma ReadKeysValid(file: Option<string>)
    ensures ValidKeys(Read(file))
  {
    if file.Some? {
      ParsedKeysValid(UniversalNewlines(file.value));
    }
  }

  /******* The store *******/

  class Store {
    var file: Option<string>  // the text on disk; None while there is no file

    constructor (onDisk: Option<string>)
      ensures file == onDisk
    {
      file := onDisk;
    }

    ghost function Contents(): map<string, string>
      reads this
    {
      Read(file).at
    }

    method List() returns (ids: seq<string>)
      ensures ToSet(ids) == Contents().Keys && Distinct(ids) && Ascending(ids, StringLe)
    {
      ids := SortedStrings(Read(file).at.Keys);
    }

    method Get(id: string) returns (value: Option<string>)
      ensures value == if id in Contents() then Some(Contents()[id]) else None
    {
      var values := Read(file);
      value := if id in values.at then Some(values.at[id]) else None;
    }

    /** The handler checks ids before it calls; for an id it would refuse the
        written line is never read back under that id. */
    method Set(id: string, value: string)
      modifies this
      ensures ValidKey(id) ==> Contents() == old(Contents())[id := value]
      ensures id in Contents() && Contents()[id] == value <==> ValidKey(id)
    {
      ReadKeysValid(file);
      var values := Read(file).Put(id, value);
      var text := FormatEnv(values);
      file := Some(text);
      if ValidKey(id) {
        WriteThenRead(values);
      }
      ReadKeysValid(file);
    }

    method Delete(id: string)
      modifies this
      ensures Contents() == old(Contents()) - {id}
      ensures id !in old(Contents()) ==> file == old(file)
    {
      ReadKeysValid(file);
      var values := Read(file);
      if id in values.at {
        var rest := Without(values, id);
        var text := FormatEnv(rest);
        file := Some(text);
        WriteThenRead(rest);
      }
    }
  }
}
