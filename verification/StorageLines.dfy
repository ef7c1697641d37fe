/** The storage file as lines: each ad is one line of text, and a line whose first character has been
    replaced by a star is dead. */
module StorageLines {
  import opened Expressions
  import opened Members

  /** The key written in a line of text. */
  type KeyOf = string -> Key

  /** Texts that can be stored: not empty, on one line. */
  predicate GoodLine(text: string) {
    text != "" && '\n' !in text
  }

  predicate IsLive(text: string) {
    text != "" && text[0] != '*'
  }

  ghost predicate GoodLines(lines: seq<string>) {
    forall i :: 0 <= i < |lines| ==> GoodLine(lines[i])
  }

  /** Each key has at most one live line. */
  ghost predicate OneLineEach(keyOf: KeyOf, lines: seq<string>) {
    forall i, j :: 0 <= i < j < |lines| && IsLive(lines[i]) && IsLive(lines[j]) ==> keyOf(lines[i]) != keyOf(lines[j])
  }

  /** The bytes of the file. */
  function Flat(lines: seq<string>): (r: string) {
    if lines == [] then ""
    else
      var n := |lines| - 1;
      Flat(lines[..n]) + (lines[n] + "\n")
  }

  /** Where each key's live line starts. */
  function Indexed(keyOf: KeyOf, lines: seq<string>): (r: map<Key, nat>)
    decreases |lines|
  {
    if lines == [] then map[]
    else
      var n := |lines| - 1;
      var r := Indexed(keyOf, lines[..n]);
      if IsLive(lines[n]) then r[keyOf(lines[n]) := |Flat(lines[..n])|] else r
  }

  /** What is stored: the live line of each key. */
  function Stored(keyOf: KeyOf, lines: seq<string>): (r: map<Key, string>)
    decreases |lines|
  {
    if lines == [] then map[]
    else
      var n := |lines| - 1;
      var r := Stored(keyOf, lines[..n]);
      if IsLive(lines[n]) then r[keyOf(lines[n]) := lines[n]] else r
  }

  /** The text from an offset to the end of its line. */
  function LineAt(file: string, offset: nat): (r: string)
    requires offset <= |file|
    ensures offset + |r| <= |file|
    decreases |file| - offset
  {
    if offset == |file| || file[offset] == '\n' then "" else [file[offset]] + LineAt(file, offset + 1)
  }

  // ------------------------------------------------------------------ lookup

  lemma {:induction false} LineFound(pre: string, text: string, post: string)
    requires '\n' !in text
    ensures LineAt(pre + (text + "\n") + post, |pre|) == text
    decreases |text|
  {
    var file := pre + (text + "\n") + post;
    if text != "" {
      var pre' := pre + [text[0]];
      assert file == pre' + (text[1..] + "\n") + post;
      LineFound(pre', text[1..], post);
    }
  }

  lemma {:induction false} FlatAppend(a: seq<string>, b: seq<string>)
    ensures Flat(a + b) == Flat(a) + Flat(b)
    decreases |b|
  {
    if b == [] {
      assert a + b == a;
    } else {
      var n := |b| - 1;
      assert (a + b)[..|a| + n] == a + b[..n];
      FlatAppend(a, b[..n]);
    }
  }

  /** The file around one of its lines. */
  lemma FlatAround(lines: seq<string>, i: nat)
    requires i < |lines|
    ensures Flat(lines) == Flat(lines[..i]) + (lines[i] + "\n") + Flat(lines[i + 1..])
  {
    hide Flat;
    FlatAppend(lines[..i + 1], lines[i + 1..]);
    assert lines[..i + 1] + lines[i + 1..] == lines;
    FlatUpTo(lines, i);
  }

  lemma FlatUpTo(lines: seq<string>, i: nat)
    requires i < |lines|
    ensures Flat(lines[..i + 1]) == Flat(lines[..i]) + (lines[i] + "\n")
  {
    assert lines[..i + 1][..i] == lines[..i];
  }

  lemma LineOf(lines: seq<string>, i: nat)
    requires i < |lines| && GoodLines(lines)
    ensures |Flat(lines[..i])| + |lines[i]| < |Flat(lines)|
    ensures LineAt(Flat(lines), |Flat(lines[..i])|) == lines[i]
  {
    hide Flat;
    FlatAround(lines, i);
    LineFound(Flat(lines[..i]), lines[i], Flat(lines[i + 1..]));
  }

  /** Where the `i`th line starts, and the line there; nothing at the end of the file. */
  lemma LineHere(lines: seq<string>, i: nat)
    requires i <= |lines| && GoodLines(lines)
    ensures |Flat(lines[..i])| <= |Flat(lines)|
    ensures LineAt(Flat(lines), |Flat(lines[..i])|) == if i < |lines| then lines[i] else ""
    ensures i > 0 ==> |Flat(lines[..i])| == |Flat(lines[..i - 1])| + |lines[i - 1]| + 1
  {
    hide Flat;
    if i < |lines| {
      LineOf(lines, i);
    } else {
      assert lines[..i] == lines;
    }
    if i > 0 {
      FlatUpTo(lines, i - 1);
    }
  }

  /** Dead lines do not change the index. */
  lemma {:induction false} DeadSkipped(keyOf: KeyOf, lines: seq<string>, n: nat, m: nat)
    requires n <= m <= |lines| && forall i :: n <= i < m ==> !IsLive(lines[i])
    ensures Indexed(keyOf, lines[..m]) == Indexed(keyOf, lines[..n])
    decreases m
  {
    if n < m {
      DeadSkipped(keyOf, lines, n, m - 1);
      assert lines[..m][..m - 1] == lines[..m - 1];
    }
  }

  /** A live line is indexed where it starts, and is what is stored for its key. */
  lemma {:induction false} LiveIndexed(keyOf: KeyOf, lines: seq<string>, i: nat)
    requires OneLineEach(keyOf, lines) && i < |lines| && IsLive(lines[i])
    ensures var k := keyOf(lines[i]);
            && k in Indexed(keyOf, lines) && Indexed(keyOf, lines)[k] == |Flat(lines[..i])|
            && k in Stored(keyOf, lines) && Stored(keyOf, lines)[k] == lines[i]
    decreases |lines|
  {
    hide Flat;
    var n := |lines| - 1;
    if i < n {
      LiveIndexed(keyOf, lines[..n], i);
      assert lines[..n][..i] == lines[..i];
    }
  }

  /** Whatever is indexed or stored has a live line. */
  lemma {:induction false} IndexedLive(keyOf: KeyOf, lines: seq<string>, key: Key) returns (i: nat)
    requires key in Indexed(keyOf, lines) || key in Stored(keyOf, lines)
    ensures i < |lines| && IsLive(lines[i]) && keyOf(lines[i]) == key
    decreases |lines|
  {
    hide Flat;
    var n := |lines| - 1;
    if IsLive(lines[n]) && keyOf(lines[n]) == key {
      i := n;
    } else {
      i := IndexedLive(keyOf, lines[..n], key);
    }
  }

  /** Every indexed offset reads back the text stored for its key. */
  lemma ReadsBack(keyOf: KeyOf, lines: seq<string>, key: Key)
    requires OneLineEach(keyOf, lines) && GoodLines(lines) && key in Indexed(keyOf, lines)
    ensures Indexed(keyOf, lines)[key] <= |Flat(lines)| && key in Stored(keyOf, lines)
    ensures LineAt(Flat(lines), Indexed(keyOf, lines)[key]) == Stored(keyOf, lines)[key]
    ensures IsLive(Stored(keyOf, lines)[key])
  {
    hide Flat;
    var i := IndexedLive(keyOf, lines, key);
    LiveIndexed(keyOf, lines, i);
    LineOf(lines, i);
  }

  // --------------------------------------------------------------- deletion

  function Killed(text: string): (r: string)
    requires text != ""
    ensures |r| == |text| && !IsLive(r)
  {
    "*" + text[1..]
  }

  lemma {:induction false} FlatLength(lines: seq<string>, i: nat, text: string, m: nat)
    requires i < |lines| && |text| == |lines[i]| && m <= |lines|
    ensures |Flat(lines[i := text][..m])| == |Flat(lines[..m])|
    decreases m
  {
    if m > 0 {
      FlatLength(lines, i, text, m - 1);
      assert lines[i := text][..m][..m - 1] == lines[i := text][..m - 1];
      assert lines[..m][..m - 1] == lines[..m - 1];
    }
  }

  /** Killing the line of a key takes just that key out of the index and of what is stored. */
  lemma KilledLine(keyOf: KeyOf, lines: seq<string>, i: nat)
    requires OneLineEach(keyOf, lines) && GoodLines(lines) && i < |lines| && IsLive(lines[i])
    ensures var lines' := lines[i := Killed(lines[i])];
            && OneLineEach(keyOf, lines') && GoodLines(lines')
            && Indexed(keyOf, lines') == Indexed(keyOf, lines) - {keyOf(lines[i])}
            && Stored(keyOf, lines') == Stored(keyOf, lines) - {keyOf(lines[i])}
  {
    hide Flat;
    hide Indexed;
    hide Stored;
    var lines' := lines[i := Killed(lines[i])];
    var k := keyOf(lines[i]);
    assert GoodLine(lines'[i]);
    var a, b := Indexed(keyOf, lines'), Indexed(keyOf, lines);
    var c, d := Stored(keyOf, lines'), Stored(keyOf, lines);
    forall x | x in a || x in c
      ensures x != k && x in b && a.Keys >= {x} && a[x] == b[x] && x in d && x in c && c[x] == d[x]
    {
      var j := IndexedLive(keyOf, lines', x);
      LiveIndexed(keyOf, lines', j);
      LiveIndexed(keyOf, lines, j);
      FlatLength(lines, i, Killed(lines[i]), j);
    }
    forall x | (x in b || x in d) && x != k ensures x in a && x in c {
      var j := IndexedLive(keyOf, lines, x);
      LiveIndexed(keyOf, lines', j);
    }
    assert a == b - {k};
    assert c == d - {k};
  }

  // --------------------------------------------------------------- addition

  lemma AddedLine(keyOf: KeyOf, lines: seq<string>, text: string)
    requires OneLineEach(keyOf, lines) && GoodLines(lines) && GoodLine(text) && IsLive(text)
    requires keyOf(text) !in Indexed(keyOf, lines)
    ensures var lines' := lines + [text];
            && OneLineEach(keyOf, lines') && GoodLines(lines')
            && Flat(lines') == Flat(lines) + (text + "\n")
            && Indexed(keyOf, lines') == Indexed(keyOf, lines)[keyOf(text) := |Flat(lines)|]
            && Stored(keyOf, lines') == Stored(keyOf, lines)[keyOf(text) := text]
  {
    var lines' := lines + [text];
    assert lines'[..|lines|] == lines;
    forall i | 0 <= i < |lines| && IsLive(lines[i]) ensures keyOf(lines[i]) != keyOf(text) {
      LiveIndexed(keyOf, lines, i);
    }
  }
}
