/** cortexgrid/_bundle.py, `digest` before hashing: the bytes fed to the hash
    can be read back. Bytes are characters below 256; a path stands for its
    UTF-8 form, which sorts as the path does. */
module Digest {
  import opened Decimal

  type Bytes = string

  const NUL: char := 0 as char

  predicate NulFree(s: Bytes) {
    forall i :: 0 <= i < |s| ==> s[i] != NUL
  }

  datatype Entry = Entry(path: Bytes, content: Bytes)

  /** What one file adds to the hash: path, NUL, length, NUL, content. */
  function Frame(entry: Entry): Bytes {
    entry.path + ([NUL] + (Numeral(|entry.content|) + ([NUL] + entry.content)))
  }

  function Stream(entries: seq<Entry>): Bytes {
    if entries == [] then [] else Stream(entries[..|entries| - 1]) + Frame(entries[|entries| - 1])
  }

  lemma StreamOfNothing()
    ensures Stream([]) == []
  {
  }

  lemma StreamNext(bytes: Bytes, entries: seq<Entry>, entry: Entry)
    requires bytes == Stream(entries)
    ensures bytes + entry.path + [NUL] + Numeral(|entry.content|) + [NUL] + entry.content == Stream(entries + [entry])
  {
    assert (entries + [entry])[..|entries|] == entries;
    assert Frame(entry) == entry.path + [NUL] + Numeral(|entry.content|) + [NUL] + entry.content;
  }

  /******* Reading a stream back *******/

  /** The text before the first NUL is determined. */
  lemma SplitAtNul(a: Bytes, x: Bytes, b: Bytes, y: Bytes)
    requires NulFree(a) && NulFree(b)
    requires a + ([NUL] + x) == b + ([NUL] + y)
    ensures a == b && x == y
  {
    var p, q := a + ([NUL] + x), b + ([NUL] + y);
    assert p[|a|] == NUL && q[|b|] == NUL;
    assert forall i :: 0 <= i < |b| ==> q[i] == b[i];
    assert forall i :: 0 <= i < |a| ==> p[i] == a[i];
    assert a == p[..|a|] == q[..|a|] == b;
    assert x == p[|a| + 1..] && y == q[|a| + 1..];
  }

  lemma NumeralNulFree(n: nat)
    ensures NulFree(Numeral(n))
  {
  }

  /** A frame at the front of a stream can only be read one way. */
  lemma FrameReadsBack(e: Entry, rest: Bytes, f: Entry, more: Bytes)
    requires NulFree(e.path) && NulFree(f.path)
    requires Frame(e) + rest == Frame(f) + more
    ensures e == f && rest == more
  {
    var eTail := Numeral(|e.content|) + ([NUL] + (e.content + rest));
    var fTail := Numeral(|f.content|) + ([NUL] + (f.content + more));
    assert Frame(e) + rest == e.path + ([NUL] + eTail);
    assert Frame(f) + more == f.path + ([NUL] + fTail);
    SplitAtNul(e.path, eTail, f.path, fTail);
    NumeralNulFree(|e.content|);
    NumeralNulFree(|f.content|);
    SplitAtNul(Numeral(|e.content|), e.content + rest, Numeral(|f.content|), f.content + more);
    NumeralInjective(|e.content|, |f.content|);
    assert e.content == (e.content + rest)[..|e.content|];
    assert f.content == (f.content + more)[..|e.content|];
    assert rest == (e.content + rest)[|e.content|..];
    assert more == (f.content + more)[|e.content|..];
  }

  lemma {:induction false} StreamFront(entries: seq<Entry>)
    requires entries != []
    ensures Stream(entries) == Frame(entries[0]) + Stream(entries[1..])
  {
    hide Frame, Stream;
    var shorter, last := entries[..|entries| - 1], entries[|entries| - 1];
    StreamLast(entries);
    if |entries| == 1 {
      assert shorter == [] && entries[1..] == [];
      StreamOfNothing();
    } else {
      StreamFront(shorter);
      var tail := entries[1..];
      StreamLast(tail);
      assert tail[..|tail| - 1] == shorter[1..] && tail[|tail| - 1] == last;
    }
  }

  lemma StreamLast(entries: seq<Entry>)
    requires entries != []
    ensures Stream(entries) == Stream(entries[..|entries| - 1]) + Frame(entries[|entries| - 1])
  {
  }

  lemma StreamEmptyIff(entries: seq<Entry>)
    ensures Stream(entries) == [] <==> entries == []
  {
    if entries != [] {
      assert NUL in Frame(entries[|entries| - 1]);
    }
  }

  lemma {:induction false} StreamInjective(a: seq<Entry>, b: seq<Entry>)
    requires forall i :: 0 <= i < |a| ==> NulFree(a[i].path)
    requires forall i :: 0 <= i < |b| ==> NulFree(b[i].path)
    requires Stream(a) == Stream(b)
    ensures a == b
  {
    hide Stream, Frame;
    StreamEmptyIff(a);
    StreamEmptyIff(b);
    if a != [] {
      StreamFront(a);
    }
    if b != [] {
      StreamFront(b);
    }
    if a != [] && b != [] {
      FrameReadsBack(a[0], Stream(a[1..]), b[0], Stream(b[1..]));
      StreamInjective(a[1..], b[1..]);
      assert a == [a[0]] + a[1..] && b == [b[0]] + b[1..];
    }
  }
}
