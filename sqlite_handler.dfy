/**
 * The SQL text the SQLite handler builds from a dict's keys: the column list and the named
 * placeholders of an INSERT, and the SET clause of an UPDATE. A dict is given by its keys in
 * insertion order; the values travel separately as named parameters.
 */
module SqliteHandler {

  /** `sep.join(parts)`. */
  function Join(parts: seq<string>, sep: string): string
    decreases |parts|
  {
    if parts == [] then ""
    else if |parts| == 1 then parts[0]
    else parts[0] + sep + Join(parts[1..], sep)
  }

  /** `s.split(c)` for a one-character separator. */
  function Split(s: string, c: char): (r: seq<string>)
    ensures |r| >= 1
    decreases |s|
  {
    if s == [] then [""]
    else if s[0] == c then [""] + Split(s[1..], c)
    else
      var rest := Split(s[1..], c);
      [[s[0]] + rest[0]] + rest[1..]
  }

  /** Each key as the named placeholder `:key`. */
  function Placeholders(keys: seq<string>): (r: seq<string>)
    ensures |r| == |keys|
    ensures forall i :: 0 <= i < |keys| ==> r[i] == ":" + keys[i]
  {
    seq(|keys|, i requires 0 <= i < |keys| => ":" + keys[i])
  }

  /** Each key as the assignment `key = :key`. */
  function Assignments(keys: seq<string>): (r: seq<string>)
    ensures |r| == |keys|
    ensures forall i :: 0 <= i < |keys| ==> r[i] == keys[i] + " = :" + keys[i]
  {
    seq(|keys|, i requires 0 <= i < |keys| => keys[i] + " = :" + keys[i])
  }

  /** The text a loop of `acc += sep + part` accumulates. */
  function Prefixed(parts: seq<string>, sep: string): string
    decreases |parts|
  {
    if parts == [] then "" else Prefixed(parts[..|parts| - 1], sep) + sep + parts[|parts| - 1]
  }

  /** The text a loop of `acc += part + sep` accumulates. */
  function Suffixed(parts: seq<string>, sep: string): string
    decreases |parts|
  {
    if parts == [] then "" else Suffixed(parts[..|parts| - 1], sep) + parts[|parts| - 1] + sep
  }

  predicate NoneContains(parts: seq<string>, c: char) {
    forall i :: 0 <= i < |parts| ==> c !in parts[i]
  }

  lemma {:induction false} JoinSnoc(parts: seq<string>, x: string, sep: string)
    requires parts != []
    ensures Join(parts + [x], sep) == Join(parts, sep) + sep + x
    decreases |parts|
  {
    if |parts| > 1 {
      assert (parts + [x])[1..] == parts[1..] + [x];
      JoinSnoc(parts[1..], x, sep);
    } else {
      assert (parts + [x])[1..] == [x];
    }
  }

  /** Prefixing every part and dropping the leading separator is joining. */
  lemma {:induction false} PrefixedJoin(parts: seq<string>, sep: string)
    requires parts != []
    ensures Prefixed(parts, sep) == sep + Join(parts, sep)
    decreases |parts|
  {
    var n := |parts| - 1;
    if n == 0 {
      assert parts == [parts[0]];
    } else {
      assert parts == parts[..n] + [parts[n]];
      PrefixedJoin(parts[..n], sep);
      JoinSnoc(parts[..n], parts[n], sep);
      var j := Join(parts[..n], sep);
      assert Prefixed(parts, sep) == (sep + j) + sep + parts[n];
      assert Join(parts, sep) == j + sep + parts[n];
      assert (sep + j) + sep + parts[n] == sep + (j + sep + parts[n]);
    }
  }

  /** Suffixing every part and dropping the trailing separator is joining. */
  lemma {:induction false} SuffixedJoin(parts: seq<string>, sep: string)
    requires parts != []
    ensures Suffixed(parts, sep) == Join(parts, sep) + sep
    decreases |parts|
  {
    var n := |parts| - 1;
    if n == 0 {
      assert parts == [parts[0]];
    } else {
      assert parts == parts[..n] + [parts[n]];
      SuffixedJoin(parts[..n], sep);
      JoinSnoc(parts[..n], parts[n], sep);
      var j := Join(parts[..n], sep);
      assert Suffixed(parts, sep) == (j + sep) + parts[n] + sep;
      assert Join(parts, sep) == j + sep + parts[n];
    }
  }

  /**
   * `convert_dict_to_query_strings`: `columns` is the keys joined by ","; `values` is the
   * placeholders joined by ", " after one space (the separator's space that `[1:]` leaves). Both are
   * empty for an empty dict.
   */
  method ConvertDictToQueryStrings(keys: seq<string>) returns (columns: string, values: string)
    ensures columns == Join(keys, ",")
    ensures values == if keys == [] then "" else " " + Join(Placeholders(keys), ", ")
  {
    var cols := "";
    var vals := "";
    for i := 0 to |keys|
      invariant cols == Prefixed(keys[..i], ",")
      invariant vals == Prefixed(Placeholders(keys[..i]), ", ")
    {
      assert keys[..i + 1][..i] == keys[..i];
      assert Placeholders(keys[..i + 1])[..i] == Placeholders(keys[..i]);
      cols := cols + "," + keys[i];
      vals := vals + ", :" + keys[i];
    }
    assert keys[..|keys|] == keys;
    if keys != [] {
      PrefixedJoin(keys, ",");
      PrefixedJoin(Placeholders(keys), ", ");
    }
    columns := if |cols| >= 1 then cols[1..] else "";
    values := if |vals| >= 1 then vals[1..] else "";
  }

  /** The SET clause `update` builds: `key = :key` per key, each followed by ",", the last "," cut off. */
  method SetClause(keys: seq<string>) returns (clause: string)
    ensures clause == Join(Assignments(keys), ",")
  {
    var updateStr := "";
    for i := 0 to |keys|
      invariant updateStr == Suffixed(Assignments(keys[..i]), ",")
    {
      assert Assignments(keys[..i + 1])[..i] == Assignments(keys[..i]);
      updateStr := updateStr + keys[i] + " = :" + keys[i] + ",";
    }
    assert keys[..|keys|] == keys;
    if keys != [] {
      SuffixedJoin(Assignments(keys), ",");
    }
    clause := if |updateStr| >= 1 then updateStr[..|updateStr| - 1] else "";
  }

  // ---------------------------------------------------------------------------------------------
  // Reading the strings back
  // ---------------------------------------------------------------------------------------------

  lemma {:induction false} SplitPlain(a: string, c: char)
    requires c !in a
    ensures Split(a, c) == [a]
    decreases |a|
  {
    if a != [] {
      SplitPlain(a[1..], c);
      assert [a[0]] + a[1..] == a;
    }
  }

  lemma {:induction false} SplitAt(a: string, b: string, c: char)
    requires c !in a
    ensures Split(a + [c] + b, c) == [a] + Split(b, c)
    decreases |a|
  {
    if a == [] {
      assert a + [c] + b == [c] + b;
      assert ([c] + b)[1..] == b;
    } else {
      assert (a + [c] + b)[1..] == a[1..] + [c] + b;
      SplitAt(a[1..], b, c);
      assert [a[0]] + a[1..] == a;
    }
  }

  /** Splitting on the separator recovers the parts, when no part contains it. */
  lemma {:induction false} SplitJoin(parts: seq<string>, c: char)
    requires parts != [] && NoneContains(parts, c)
    ensures Split(Join(parts, [c]), c) == parts
    decreases |parts|
  {
    if |parts| == 1 {
      SplitPlain(parts[0], c);
    } else {
      SplitJoin(parts[1..], c);
      SplitAt(parts[0], Join(parts[1..], [c]), c);
    }
  }

  /** `" " + ", ".join(parts)` is `",".join` of the parts each after a space. */
  lemma {:induction false} SpacedJoin(parts: seq<string>)
    requires parts != []
    ensures " " + Join(parts, ", ") == Join(seq(|parts|, i requires 0 <= i < |parts| => " " + parts[i]), ",")
    decreases |parts|
  {
    var spaced := seq(|parts|, i requires 0 <= i < |parts| => " " + parts[i]);
    if |parts| > 1 {
      SpacedJoin(parts[1..]);
      assert spaced[1..] == seq(|parts[1..]|, i requires 0 <= i < |parts[1..]| => " " + parts[1..][i]);
    }
  }

  /**
   * For keys without commas, the column list names the keys in order, and the i-th placeholder of the
   * values string is `:` and the i-th key: the two strings line up entry by entry.
   */
  lemma InsertStringsLineUp(keys: seq<string>)
    requires keys != [] && NoneContains(keys, ',')
    ensures Split(Join(keys, ","), ',') == keys
    ensures var entries := Split(" " + Join(Placeholders(keys), ", "), ',');
            |entries| == |keys| && forall i :: 0 <= i < |keys| ==> entries[i] == " :" + keys[i]
  {
    SplitJoin(keys, ',');
    SpacedJoin(Placeholders(keys));
    var spaced := seq(|keys|, i requires 0 <= i < |keys| => " " + Placeholders(keys)[i]);
    assert forall i :: 0 <= i < |keys| ==> spaced[i] == " :" + keys[i];
    assert NoneContains(spaced, ',') by {
      forall i | 0 <= i < |keys| ensures ',' !in spaced[i] {
        assert spaced[i] == [' ', ':'] + keys[i];
      }
    }
    SplitJoin(spaced, ',');
  }

  /** For keys without commas, the SET clause holds one `key = :key` per key, in order. */
  lemma SetClauseLinesUp(keys: seq<string>)
    requires keys != [] && NoneContains(keys, ',')
    ensures Split(Join(Assignments(keys), ","), ',') == Assignments(keys)
  {
    var a := Assignments(keys);
    assert NoneContains(a, ',') by {
      forall i | 0 <= i < |keys| ensures ',' !in a[i] {
        assert a[i] == keys[i] + [' ', '=', ' ', ':'] + keys[i];
      }
    }
    SplitJoin(a, ',');
  }
}
