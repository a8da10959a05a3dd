/** The deployment environment file as lines of KEY=VALUE: reading, first-install and in-place replacement. */
module EnvFile {

  import opened Wrappers

  type Lines = seq<string>

  /** Distinct keys with their new values, in insertion order. */
  type Updates = seq<(string, string)>

  function KeyLength(line: string): nat {
    if line == "" || line[0] == '=' then 0 else 1 + KeyLength(line[1..])
  }

  lemma {:induction false} KeyLengthBounds(line: string)
    ensures KeyLength(line) <= |line|
    ensures '=' in line <==> KeyLength(line) < |line|
    ensures '=' !in line[..KeyLength(line)]
    ensures KeyLength(line) < |line| ==> line[KeyLength(line)] == '='
  {
    if line != "" && line[0] != '=' {
      KeyLengthBounds(line[1..]);
      assert line == [line[0]] + line[1..];
      assert line[..KeyLength(line)] == [line[0]] + line[1..][..KeyLength(line[1..])];
    }
  }

  /** `line.split("=", 1)`, for lines that contain an equals sign. */
  function Split(line: string): Option<(string, string)> {
    KeyLengthBounds(line);
    if '=' !in line then None else Some((line[..KeyLength(line)], line[KeyLength(line) + 1..]))
  }

  function Join(key: string, value: string): string { key + "=" + value }

  lemma {:induction false} JoinedKeyLength(key: string, value: string)
    requires '=' !in key
    ensures KeyLength(Join(key, value)) == |key|
  {
    if key == "" {
      assert Join(key, value)[0] == '=';
    } else {
      JoinedKeyLength(key[1..], value);
      assert Join(key, value)[1..] == Join(key[1..], value);
      assert Join(key, value)[0] == key[0];
    }
  }

  lemma SplitJoin(key: string, value: string)
    requires '=' !in key
    ensures Split(Join(key, value)) == Some((key, value))
  {
    JoinedKeyLength(key, value);
    assert Join(key, value)[|key|] == '=';
    assert Join(key, value)[..|key|] == key && Join(key, value)[|key| + 1..] == value;
  }

  predicate HasKey(line: string, key: string) {
    Split(line).Some? && Split(line).value.0 == key
  }

  /** All values a key is given, in file order. */
  function Values(lines: Lines, key: string): seq<string> {
    if lines == [] then []
    else
      Values(lines[..|lines| - 1], key) +
      if HasKey(lines[|lines| - 1], key) then [Split(lines[|lines| - 1]).value.1] else []
  }

  lemma SplitIs(line: string, key: string, value: string)
    requires '=' !in key
    ensures Split(line) == Some((key, value)) <==> line == key + "=" + value
  {
    SplitJoin(key, value);
    KeyLengthBounds(line);
    if Split(line) == Some((key, value)) {
      var n := KeyLength(line);
      assert line == line[..n] + [line[n]] + line[n + 1..];
    }
  }

  /** The values of a key are what stands after its equals sign in the lines that begin with it. */
  lemma {:induction false} ValuesAre(lines: Lines, key: string, value: string)
    requires '=' !in key
    ensures value in Values(lines, key) <==> key + "=" + value in lines
  {
    if lines != [] {
      var before, line := lines[..|lines| - 1], lines[|lines| - 1];
      assert lines == before + [line];
      ValuesAre(before, key, value);
      SplitIs(line, key, value);
      hide Split;
    }
  }

  lemma {:induction false} ValuesConcat(a: Lines, b: Lines, key: string)
    ensures Values(a + b, key) == Values(a, key) + Values(b, key)
  {
    if b == [] {
      assert a + b == a;
    } else {
      assert (a + b)[..|a + b| - 1] == a + b[..|b| - 1];
      ValuesConcat(a, b[..|b| - 1], key);
    }
  }

  /** `dict(updates).get(key)`. */
  function Lookup(updates: Updates, key: string): Option<string> {
    if updates == [] then None
    else if updates[0].0 == key then Some(updates[0].1)
    else Lookup(updates[1..], key)
  }

  predicate ProperUpdates(updates: Updates) {
    && (forall i :: 0 <= i < |updates| ==> '=' !in updates[i].0)
    && (forall i, j :: 0 <= i < j < |updates| ==> updates[i].0 != updates[j].0)
  }

  lemma {:induction false} LookupFinds(updates: Updates, i: nat)
    requires ProperUpdates(updates) && i < |updates|
    ensures Lookup(updates, updates[i].0) == Some(updates[i].1)
  {
    if i > 0 {
      LookupFinds(updates[1..], i - 1);
    }
  }

  lemma {:induction false} LookupMisses(updates: Updates, key: string)
    ensures Lookup(updates, key).Some? <==> exists i :: 0 <= i < |updates| && updates[i].0 == key
  {
    if updates != [] {
      LookupMisses(updates[1..], key);
      if Lookup(updates[1..], key).Some? {
        var i :| 0 <= i < |updates[1..]| && updates[1..][i].0 == key;
        assert updates[i + 1].0 == key;
      }
      forall i | 0 <= i < |updates| && updates[i].0 == key
        ensures Lookup(updates, key).Some?
      {
        assert i > 0 ==> updates[1..][i - 1].0 == key;
      }
    }
  }

  function LineKey(line: string): string { if Split(line).Some? then Split(line).value.0 else "" }

  /** Existing lines with the first occurrence of every updated key replaced and the others dropped;
      `written` are the keys already replaced. */
  function Replaced(lines: Lines, updates: Updates): (result: (Lines, set<string>)) {
    if lines == [] then ([], {})
    else
      var (output, written) := Replaced(lines[..|lines| - 1], updates);
      var line := lines[|lines| - 1];
      var key := LineKey(line);
      match Lookup(updates, key)
      case None => (output + [line], written)
      case Some(v) => if key in written then (output, written) else (output + [Join(key, v)], written + {key})
  }

  function Missing(updates: Updates, written: set<string>): Lines {
    if updates == [] then []
    else (if updates[0].0 in written then [] else [Join(updates[0].0, updates[0].1)]) + Missing(updates[1..], written)
  }

  /** The atomic replacement of several variables. */
  function SetVariables(lines: Lines, updates: Updates): Lines {
    var (output, written) := Replaced(lines, updates);
    output + Missing(updates, written)
  }

  lemma {:induction false} ReplacedValues(lines: Lines, updates: Updates, key: string)
    requires ProperUpdates(updates) && "" != key
    ensures var (output, written) := Replaced(lines, updates);
            match Lookup(updates, key)
            case None => Values(output, key) == Values(lines, key) && key !in written
            case Some(v) => Values(output, key) == if key in written then [v] else []
  {
    if lines != [] {
      var before, line := lines[..|lines| - 1], lines[|lines| - 1];
      ReplacedValues(before, updates, key);
      var (output, written) := Replaced(before, updates);
      var k := LineKey(line);
      match Lookup(updates, k)
      case None =>
        ValuesConcat(output, [line], key);
        SingleValue(line, key);
      case Some(v) =>
        LookupMisses(updates, k);
        if k !in written {
          ValuesConcat(output, [Join(k, v)], key);
          SplitJoin(k, v);
          SingleValue(Join(k, v), key);
        }
    }
  }

  lemma SingleValue(line: string, key: string)
    ensures Values([line], key) == if HasKey(line, key) then [Split(line).value.1] else []
  {
    assert [line][..0] == [];
  }

  lemma {:induction false} MissingValues(updates: Updates, written: set<string>, key: string)
    requires ProperUpdates(updates)
    ensures Values(Missing(updates, written), key) ==
            if key !in written && Lookup(updates, key).Some? then [Lookup(updates, key).value] else []
  {
    if updates != [] {
      var (k, v) := updates[0];
      MissingValues(updates[1..], written, key);
      assert ProperUpdates(updates[1..]);
      if k == key {
        LookupMisses(updates[1..], key);
        assert forall i :: 0 <= i < |updates[1..]| ==> updates[1..][i] == updates[i + 1];
      }
      if k !in written {
        ValuesConcat([Join(k, v)], Missing(updates[1..], written), key);
        SplitJoin(k, v);
        SingleValue(Join(k, v), key);
      } else {
        assert Missing(updates, written) == Missing(updates[1..], written);
      }
    }
  }

  /** Afterwards every updated key has exactly its new value, and every other key keeps all its values. */
  lemma SetVariablesValues(lines: Lines, updates: Updates, key: string)
    requires ProperUpdates(updates) && key != ""
    ensures Values(SetVariables(lines, updates), key) ==
            if Lookup(updates, key).Some? then [Lookup(updates, key).value] else Values(lines, key)
  {
    var (output, written) := Replaced(lines, updates);
    ReplacedValues(lines, updates, key);
    MissingValues(updates, written, key);
    ValuesConcat(output, Missing(updates, written), key);
  }

  // ---------- the lines that stay ----------

  /** The line assigns one of the updated keys. */
  ghost predicate Touched(line: string, updates: Updates) {
    exists i :: 0 <= i < |updates| && updates[i].0 + "=" <= line
  }

  /** The other lines, in file order: other assignments, comments, blank lines. */
  ghost function Others(lines: Lines, updates: Updates): Lines {
    if lines == [] then []
    else Others(lines[..|lines| - 1], updates) + if Touched(lines[|lines| - 1], updates) then [] else [lines[|lines| - 1]]
  }

  lemma AssignsIs(line: string, key: string)
    requires '=' !in key
    ensures key + "=" <= line <==> HasKey(line, key)
  {
    KeyLengthBounds(line);
    if key + "=" <= line {
      var rest := line[|key| + 1..];
      assert line == Join(key, rest);
      SplitJoin(key, rest);
    }
  }

  lemma TouchedIs(line: string, updates: Updates)
    requires ProperUpdates(updates) && forall i :: 0 <= i < |updates| ==> updates[i].0 != ""
    ensures Touched(line, updates) <==> Lookup(updates, LineKey(line)).Some?
  {
    LookupMisses(updates, LineKey(line));
    forall i | 0 <= i < |updates| ensures updates[i].0 + "=" <= line <==> updates[i].0 == LineKey(line) {
      AssignsIs(line, updates[i].0);
    }
    hide Lookup;
  }

  lemma {:induction false} OthersConcat(a: Lines, b: Lines, updates: Updates)
    ensures Others(a + b, updates) == Others(a, updates) + Others(b, updates)
  {
    if b == [] {
      assert a + b == a;
    } else {
      assert (a + b)[..|a + b| - 1] == a + b[..|b| - 1];
      OthersConcat(a, b[..|b| - 1], updates);
    }
  }

  lemma OneOther(line: string, updates: Updates)
    ensures Others([line], updates) == if Touched(line, updates) then [] else [line]
  {
    assert [line][..0] == [];
  }

  lemma JoinIsTouched(updates: Updates, i: nat, value: string)
    requires i < |updates|
    ensures Touched(Join(updates[i].0, value), updates)
  {
  }

  lemma {:induction false} ReplacedKeepsOthers(lines: Lines, updates: Updates)
    requires ProperUpdates(updates) && forall i :: 0 <= i < |updates| ==> updates[i].0 != ""
    ensures Others(Replaced(lines, updates).0, updates) == Others(lines, updates)
  {
    if lines != [] {
      var before, line := lines[..|lines| - 1], lines[|lines| - 1];
      ReplacedKeepsOthers(before, updates);
      TouchedIs(line, updates);
      var output, key := Replaced(before, updates).0, LineKey(line);
      OthersConcat(output, [line], updates);
      OneOther(line, updates);
      if Lookup(updates, key).Some? {
        LookupMisses(updates, key);
        var i :| 0 <= i < |updates| && updates[i].0 == key;
        JoinIsTouched(updates, i, Lookup(updates, key).value);
        OthersConcat(output, [Join(key, Lookup(updates, key).value)], updates);
        OneOther(Join(key, Lookup(updates, key).value), updates);
      }
      hide Lookup, LineKey, Touched;
    }
  }

  ghost predicate AllTouched(lines: Lines, updates: Updates) { forall i :: 0 <= i < |lines| ==> Touched(lines[i], updates) }

  lemma {:induction false} NoOthers(lines: Lines, updates: Updates)
    requires AllTouched(lines, updates)
    ensures Others(lines, updates) == []
  {
    if lines != [] {
      NoOthers(lines[..|lines| - 1], updates);
    }
  }

  lemma {:induction false} MissingIsTouched(updates: Updates, n: nat, written: set<string>)
    requires n <= |updates|
    ensures AllTouched(Missing(updates[n..], written), updates)
    decreases |updates| - n
  {
    if n < |updates| {
      MissingIsTouched(updates, n + 1, written);
      assert updates[n..][1..] == updates[n + 1..];
      JoinIsTouched(updates, n, updates[n].1);
      hide Touched;
    }
  }

  /** Every line that assigns no updated key comes out unchanged and in order, comments and blank lines included. */
  lemma OthersKept(lines: Lines, updates: Updates)
    requires ProperUpdates(updates) && forall i :: 0 <= i < |updates| ==> updates[i].0 != ""
    ensures Others(SetVariables(lines, updates), updates) == Others(lines, updates)
  {
    var (output, written) := Replaced(lines, updates);
    ReplacedKeepsOthers(lines, updates);
    MissingIsTouched(updates, 0, written);
    assert updates[0..] == updates;
    NoOthers(Missing(updates, written), updates);
    OthersConcat(output, Missing(updates, written), updates);
  }

  /** No updated key is assigned twice. */
  ghost predicate NotRepeated(lines: Lines, updates: Updates) {
    forall i, j :: 0 <= i < j < |lines| && Lookup(updates, LineKey(lines[i])).Some? ==> LineKey(lines[i]) != LineKey(lines[j])
  }

  ghost function Edited(line: string, updates: Updates): string {
    var value := Lookup(updates, LineKey(line));
    if value.Some? then Join(LineKey(line), value.value) else line
  }

  lemma {:induction false} ReplacedInPlace(lines: Lines, updates: Updates)
    requires NotRepeated(lines, updates)
    ensures var (output, written) := Replaced(lines, updates);
            && |output| == |lines| && (forall i :: 0 <= i < |lines| ==> output[i] == Edited(lines[i], updates))
            && forall key :: key in written ==> exists i :: 0 <= i < |lines| && LineKey(lines[i]) == key && Lookup(updates, key).Some?
  {
    if lines != [] {
      var before, line := lines[..|lines| - 1], lines[|lines| - 1];
      assert forall i :: 0 <= i < |before| ==> before[i] == lines[i];
      ReplacedInPlace(before, updates);
      var written, key := Replaced(before, updates).1, LineKey(line);
      assert Lookup(updates, key).Some? ==> key !in written;
      hide Lookup, LineKey;
    }
  }

  lemma EditedIs(line: string, updates: Updates, j: nat)
    requires ProperUpdates(updates) && j < |updates|
    ensures updates[j].0 + "=" <= line ==> Edited(line, updates) == updates[j].0 + "=" + updates[j].1
  {
    AssignsIs(line, updates[j].0);
    LookupFinds(updates, j);
  }

  lemma UneditedIs(line: string, updates: Updates)
    requires ProperUpdates(updates) && forall i :: 0 <= i < |updates| ==> updates[i].0 != ""
    ensures !Touched(line, updates) ==> Edited(line, updates) == line
  {
    TouchedIs(line, updates);
    hide Lookup, LineKey;
  }

  /** A file that assigns no updated key twice is edited in place: every line keeps its position, an assignment of an updated key
      gets its new value, and any other line stays as it is. */
  lemma EditedInPlace(lines: Lines, updates: Updates, i: nat)
    requires ProperUpdates(updates) && (forall i :: 0 <= i < |updates| ==> updates[i].0 != "") && NotRepeated(lines, updates) && i < |lines|
    ensures |SetVariables(lines, updates)| >= |lines|
    ensures !Touched(lines[i], updates) ==> SetVariables(lines, updates)[i] == lines[i]
    ensures forall j :: 0 <= j < |updates| && updates[j].0 + "=" <= lines[i] ==>
              SetVariables(lines, updates)[i] == updates[j].0 + "=" + updates[j].1
  {
    ReplacedInPlace(lines, updates);
    UneditedIs(lines[i], updates);
    forall j | 0 <= j < |updates| && updates[j].0 + "=" <= lines[i] ensures Edited(lines[i], updates) == updates[j].0 + "=" + updates[j].1 {
      EditedIs(lines[i], updates, j);
    }
    hide Edited, Touched, Replaced;
  }
}
