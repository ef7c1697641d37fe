/** The storage file and its index, changed in place. */
module IndexFiles {
  import opened Expressions
  import opened Members
  import opened StorageLines

  class IndexFile {
    const keyOf: KeyOf
    var file: string
    var Index: map<Key, nat>
    ghost var lines: seq<string>

    /** The file is a sequence of lines, each key has at most one live one, and the index is theirs. */
    ghost predicate Valid()
      reads this
    {
      && GoodLines(lines) && OneLineEach(keyOf, lines)
      && file == Flat(lines)
      && Index == Indexed(keyOf, lines)
    }

    /** The texts stored by key. */
    ghost function Texts(): (r: map<Key, string>)
      reads this
    {
      Stored(keyOf, lines)
    }

    constructor (keyOf: KeyOf)
      ensures Valid() && Texts() == map[] && this.keyOf == keyOf
    {
      this.keyOf := keyOf;
      file, Index, lines := "", map[], [];
    }

    /** The index holds exactly the stored keys. */
    lemma IndexHoldsStored()
      requires Valid()
      ensures Index.Keys == Texts().Keys
    {
      hide Flat;
      forall k ensures k in Index <==> k in Texts() {
        if k in Index || k in Texts() {
          var i := IndexedLive(keyOf, lines, k);
          LiveIndexed(keyOf, lines, i);
        }
      }
    }

    /** Reads a line a character at a time. */
    method ReadLine(offset: nat) returns (m: string)
      requires offset <= |file|
      ensures m == LineAt(file, offset)
    {
      m := "";
      var at := offset;
      while at < |file| && file[at] != '\n'
        invariant offset <= at <= |file|
        invariant LineAt(file, offset) == m + LineAt(file, at)
      {
        m := m + [file[at]];
        at := at + 1;
      }
    }

    /** The text at an offset, or nothing if the line is dead. */
    method GetClassadFromFile(key: Key, offset: nat) returns (text: string)
      requires Valid() && offset <= |file|
      ensures key in Index && offset == Index[key] ==> key in Texts() && text == Texts()[key]
      ensures !IsLive(LineAt(file, offset)) ==> text == ""
    {
      hide Flat;
      var m := ReadLine(offset);
      if key in Index {
        ReadsBack(keyOf, lines, key);
      }
      return if m != "" && m[0] == '*' then "" else m;
    }

    method FindInFile(key: Key) returns (found: bool, offset: nat)
      requires Valid()
      ensures found <==> key in Texts()
      ensures found ==> key in Index && offset == Index[key] && offset <= |file|
    {
      hide Flat;
      IndexHoldsStored();
      if key !in Index {
        return false, 0;
      }
      ReadsBack(keyOf, lines, key);
      return true, Index[key];
    }

    /** Marks the line of a key dead, by overwriting its first character, and forgets it. */
    method DeleteFromStorageFile(key: Key) returns (found: bool)
      requires Valid()
      modifies this
      ensures Valid() && found == (key in old(Texts())) && Texts() == old(Texts()) - {key}
      ensures key !in Index
      ensures found == (key in old(Index)) && (!found ==> file == old(file))
      ensures found ==> old(Index)[key] < |old(file)| && file == old(file)[old(Index)[key] := '*']
    {
      hide Flat;
      IndexHoldsStored();
      if key !in Index {
        return false;
      }
      var offset := Index[key];
      ghost var i := IndexedLive(keyOf, lines, key);
      LiveIndexed(keyOf, lines, i);
      LineOf(lines, i);
      KilledLine(keyOf, lines, i);
      KilledFile(lines, i);
      OneByte(lines, i);
      var m := ReadLine(offset);
      m := "*" + m[1..] + "\n";
      file := file[..offset] + m + file[offset + |m|..];
      Index := Index - {key};
      lines := lines[i := Killed(lines[i])];
      return true;
    }

    /** Replaces what is stored for a key, by a new line at the end. */
    method WriteBack(key: Key, text: string)
      requires Valid() && GoodLine(text) && IsLive(text) && keyOf(text) == key
      modifies this
      ensures Valid() && Texts() == old(Texts())[key := text]
      ensures |file| == |old(file)| + |text| + 1 && file[|old(file)|..] == text + "\n"
    {
      hide Valid;
      hide Flat;
      hide Stored;
      var _ := DeleteFromStorageFile(key);
      AppendLine(key, text);
    }

    /** A line for a key that has none goes to the end of the file. */
    method AppendLine(key: Key, text: string)
      requires Valid() && GoodLine(text) && IsLive(text) && keyOf(text) == key && key !in Index
      modifies this
      ensures Valid() && Texts() == old(Texts())[key := text]
      ensures file == old(file) + (text + "\n")
    {
      hide Flat;
      AddedLine(keyOf, lines, text);
      Index := Index[key := |file|];
      file := file + (text + "\n");
      lines := lines + [text];
    }

    /** Builds the index again from the start of the file. */
    method Rescan() returns (index: map<Key, nat>)
      requires Valid()
      ensures index == Index
    {
      hide Flat;
      index := map[];
      var at, more := 0, true;
      ghost var n := 0;
      FlatOfNone(lines);
      while more
        invariant n <= |lines|
        invariant more ==> at == |Flat(lines[..n])| <= |file|
        invariant index == Indexed(keyOf, lines[..n])
        invariant !more ==> n == |lines|
        decreases |lines| - n, more
      {
        var offset, key;
        ghost var m;
        more, offset, key, at, m := ReadStorageEntry(at, n);
        if more {
          assert lines[..m][..m - 1] == lines[..m - 1];
          index := index[key := offset];
        }
        n := m;
      }
      assert lines[..n] == lines;
    }

    /** Reads on to the next live line, and gives its offset, its key and where to read next; an empty
        line is the end. */
    method ReadStorageEntry(start: nat, ghost n: nat)
      returns (found: bool, offset: nat, key: Key, next: nat, ghost m: nat)
      requires Valid() && n <= |lines| && start == |Flat(lines[..n])| <= |file|
      ensures n <= m <= |lines| && (found ==> n < m) && (!found ==> m == |lines|)
      ensures found ==> IsLive(lines[m - 1]) && key == keyOf(lines[m - 1])
      ensures found ==> offset == |Flat(lines[..m - 1])| && next == |Flat(lines[..m])| <= |file|
      ensures forall i :: n <= i < (if found then m - 1 else m) ==> !IsLive(lines[i])
      ensures Indexed(keyOf, lines[..if found then m - 1 else m]) == Indexed(keyOf, lines[..n])
    {
      hide Flat;
      hide LineAt;
      hide Indexed;
      offset, m, key := start, n, "";
      var line := ReadLine(offset);
      LineHere(lines, m);
      while line != "" && line[0] == '*'
        invariant n <= m <= |lines| && offset == |Flat(lines[..m])| <= |file|
        invariant line == if m < |lines| then lines[m] else ""
        invariant forall i :: n <= i < m ==> !IsLive(lines[i])
        decreases |lines| - m
      {
        LineHere(lines, m + 1);
        offset, m := offset + |line| + 1, m + 1;
        line := ReadLine(offset);
      }
      DeadSkipped(keyOf, lines, n, m);
      if line == "" {
        return false, offset, key, offset, m;
      }
      LineHere(lines, m + 1);
      return true, offset, keyOf(line), offset + |line| + 1, m + 1;
    }
  }

  /** Writing the dead line over the live one changes one character of the file. */
  lemma OneByte(lines: seq<string>, i: nat)
    requires i < |lines| && GoodLines(lines)
    ensures var o, m := |Flat(lines[..i])|, "*" + lines[i][1..] + "\n";
            && o + |m| <= |Flat(lines)|
            && Flat(lines)[..o] + m + Flat(lines)[o + |m|..] == Flat(lines)[o := '*']
  {
    hide Flat;
    assert GoodLine(lines[i]);
    FlatAround(lines, i);
    Overwritten(Flat(lines[..i]), lines[i], Flat(lines[i + 1..]));
  }

  lemma Overwritten(before: string, line: string, after: string)
    requires line != ""
    ensures var s, o, m := before + (line + "\n") + after, |before|, "*" + line[1..] + "\n";
            s[..o] + m + s[o + |m|..] == s[o := '*']
  {
    var s, o, m := before + (line + "\n") + after, |before|, "*" + line[1..] + "\n";
    assert s[..o] == before && s[o + |m|..] == after;
    assert m == (line + "\n")[0 := '*'];
  }

  /** Overwriting a line from its offset on changes that line alone. */
  lemma KilledFile(lines: seq<string>, i: nat)
    requires i < |lines| && GoodLines(lines)
    ensures var o, m := |Flat(lines[..i])|, Killed(lines[i]) + "\n";
            && o + |m| <= |Flat(lines)|
            && Flat(lines[i := Killed(lines[i])]) == Flat(lines)[..o] + m + Flat(lines)[o + |m|..]
  {
    hide Flat;
    assert GoodLine(lines[i]);
    var lines' := lines[i := Killed(lines[i])];
    FlatAround(lines, i);
    FlatAround(lines', i);
    assert lines'[..i] == lines[..i] && lines'[i + 1..] == lines[i + 1..];
    var o := |Flat(lines[..i])|;
    assert Flat(lines)[..o] == Flat(lines[..i]);
    assert Flat(lines)[o + |lines[i]| + 1..] == Flat(lines[i + 1..]);
  }

  lemma FlatOfNone(lines: seq<string>)
    ensures Flat(lines[..0]) == "" && forall keyOf: KeyOf :: Indexed(keyOf, lines[..0]) == map[]
  {
  }
}
