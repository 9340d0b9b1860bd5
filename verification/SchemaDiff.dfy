/** Schema differences as text (engine/src/inandout/schema_registry/local.py) and the migration that parses
    them back (engine/src/inandout/postgres/schema_migration.py). */
module SchemaDiff {

  datatype Column = Column(name: string, pgType: string, nullable: bool)

  /** The dict `{c.name: c}`: a later column of the same name replaces an earlier one .. */
  function ByName(cols: seq<Column>): map<string, Column> {
    if cols == [] then map[]
    else ByName(cols[..|cols| - 1])[cols[|cols| - 1].name := cols[|cols| - 1]]
  }

  /** .. and keeps its place in the order of keys. */
  function Names(cols: seq<Column>): (ns: seq<string>)
    ensures forall n :: n in ns <==> n in ByName(cols)
  {
    if cols == [] then []
    else
      var ns := Names(cols[..|cols| - 1]);
      if cols[|cols| - 1].name in ns then ns else ns + [cols[|cols| - 1].name]
  }

  /** The first place where a column name occurs. */
  ghost predicate FirstNamed(cols: seq<Column>, k: int) {
    0 <= k < |cols| && forall j :: 0 <= j < k ==> cols[j].name != cols[k].name
  }

  ghost function FirstNames(cols: seq<Column>, k: nat): nat
    requires k <= |cols|
  {
    if k == 0 then 0 else FirstNames(cols, k - 1) + if FirstNamed(cols, k - 1) then 1 else 0
  }

  lemma {:induction false} FirstNamesPrefix(cols: seq<Column>, n: nat, k: nat)
    requires k <= n <= |cols|
    ensures FirstNames(cols[..n], k) == FirstNames(cols, k)
    ensures forall j :: 0 <= j < n ==> (FirstNamed(cols[..n], j) <==> FirstNamed(cols, j))
    decreases k
  {
    if k > 0 { FirstNamesPrefix(cols, n, k - 1); }
  }

  ghost predicate NamedAt(cols: seq<Column>, ns: seq<string>, k: nat)
    requires k < |cols|
  {
    FirstNames(cols, k) < |ns| && ns[FirstNames(cols, k)] == cols[k].name
  }

  /** Each name once, in the order of first occurrence. */
  lemma {:induction false} NamesAre(cols: seq<Column>)
    ensures |Names(cols)| == FirstNames(cols, |cols|)
    ensures forall k :: 0 <= k < |cols| && FirstNamed(cols, k) ==> NamedAt(cols, Names(cols), k)
  {
    if cols != [] {
      var n := |cols| - 1;
      NamesAre(cols[..n]);
      FirstNamesPrefix(cols, n, n);
      NamedIff(cols[..n], cols[n].name);
      forall k | 0 <= k < n && FirstNamed(cols, k) ensures NamedAt(cols, Names(cols), k) {
        FirstNamesPrefix(cols, n, k);
        assert NamedAt(cols[..n], Names(cols[..n]), k);
      }
    }
  }

  lemma {:induction false} NamedIff(cols: seq<Column>, name: string)
    ensures name in ByName(cols) <==> exists j :: 0 <= j < |cols| && cols[j].name == name
  {
    if cols != [] {
      var n := |cols| - 1;
      NamedIff(cols[..n], name);
      if j :| 0 <= j < n && cols[..n][j].name == name { assert cols[j].name == name; }
      if j :| 0 <= j < |cols| && cols[j].name == name { assert j == n || cols[..n][j].name == name; }
    }
  }

  // ---------------------------------------------------------------- printing

  const ARROW := " \U{2192} "

  function Added(c: Column): string { "added column '" + c.name + "' (" + c.pgType + ")" }

  function Removed(name: string): string { "removed column '" + name + "'" }

  const QUOTE := '\''

  const HEX := "0123456789abcdef"

  /** Below 32, and 127. Characters beyond ASCII are taken to be printable. */
  predicate Control(c: char) {
    c as int < 32 || c as int == 127
  }

  /** Backslashes are doubled, single quotes escaped when they delimit the text, control characters written out. */
  function EscapeChar(c: char, delimited: bool): string {
    if c == '\\' then "\\\\"
    else if delimited && c == QUOTE then "\\'"
    else if c == '\t' then "\\t"
    else if c == '\n' then "\\n"
    else if c == '\r' then "\\r"
    else if Control(c) then "\\x" + [HEX[c as int / 16], HEX[c as int % 16]]
    else [c]
  }

  function Escape(s: string, delimited: bool): string {
    if s == "" then "" else EscapeChar(s[0], delimited) + Escape(s[1..], delimited)
  }

  /** `repr`: double quotes are used for one with single quotes and no double ones. */
  function Repr(s: string): string {
    if QUOTE in s && '"' !in s then "\"" + Escape(s, false) + "\"" else "'" + Escape(s, true) + "'"
  }

  function HexValue(c: char): int {
    if '0' <= c <= '9' then c as int - '0' as int else c as int - 'a' as int + 10
  }

  /** The text that an escaped one stands for. */
  function Unescape(t: string): string {
    if t == "" then ""
    else if t[0] != '\\' || |t| == 1 then [t[0]] + Unescape(t[1..])
    else if t[1] == 't' then ['\t'] + Unescape(t[2..])
    else if t[1] == 'n' then ['\n'] + Unescape(t[2..])
    else if t[1] == 'r' then ['\r'] + Unescape(t[2..])
    else if t[1] == 'x' && |t| >= 4 && 0 <= 16 * HexValue(t[2]) + HexValue(t[3]) < 128 then
      [(16 * HexValue(t[2]) + HexValue(t[3])) as char] + Unescape(t[4..])
    else [t[1]] + Unescape(t[2..])
  }

  lemma {:induction false} UnescapeHead(c: char, delimited: bool, rest: string)
    ensures Unescape(EscapeChar(c, delimited) + rest) == [c] + Unescape(rest)
  {
    var e := EscapeChar(c, delimited);
    var t := e + rest;
    assert t[|e|..] == rest;
    if |e| == 4 { HexReads(c); }
  }

  lemma {:induction false} HexReads(c: char)
    requires Control(c)
    ensures 16 * HexValue(HEX[c as int / 16]) + HexValue(HEX[c as int % 16]) == c as int
  {
    HexDigit(c as int / 16);
    HexDigit(c as int % 16);
  }

  lemma {:induction false} HexDigit(d: nat)
    requires d < 16
    ensures HexValue(HEX[d]) == d
  {
  }

  lemma {:induction false} UnescapeInverts(s: string, delimited: bool)
    ensures Unescape(Escape(s, delimited)) == s
  {
    if s != "" {
      UnescapeInverts(s[1..], delimited);
      UnescapeHead(s[0], delimited, Escape(s[1..], delimited));
      assert s == [s[0]] + s[1..];
    }
  }

  /** A printed text is delimited by double quotes exactly if it has single ones and no double ones; between the
      delimiters it stands for the text; and printable characters stand for themselves. */
  lemma {:induction false} ReprReadsBack(s: string)
    ensures var p := Repr(s);
      && |p| >= 2 && p[0] == p[|p| - 1] == (if '\'' in s && '"' !in s then '"' else '\'')
      && Unescape(p[1..|p| - 1]) == s
    ensures (forall i :: 0 <= i < |s| ==> 32 <= s[i] as int != 127 && s[i] != '\\' && s[i] != '\'') ==>
      Repr(s) == "'" + s + "'"
  {
    UnescapeInverts(s, true);
    UnescapeInverts(s, false);
    if forall i :: 0 <= i < |s| ==> 32 <= s[i] as int != 127 && s[i] != '\\' && s[i] != '\'' { EscapesNothing(s); }
    assert ("'" + Escape(s, true) + "'")[1..1 + |Escape(s, true)|] == Escape(s, true);
    assert ("\"" + Escape(s, false) + "\"")[1..1 + |Escape(s, false)|] == Escape(s, false);
  }

  lemma {:induction false} EscapesNothing(s: string)
    requires forall i :: 0 <= i < |s| ==> 32 <= s[i] as int != 127 && s[i] != '\\' && s[i] != '\''
    ensures Escape(s, true) == s
  {
    if s != "" {
      EscapesNothing(s[1..]);
      assert s == [s[0]] + s[1..];
    }
  }

  /** The end of a type-change line, from the quote after the name on. */
  function TypeText(o: string, n: string): string {
    " type changed: " + (Repr(o) + ARROW + Repr(n))
  }

  function TypeChanged(name: string, o: string, n: string): string {
    "column '" + name + "'" + TypeText(o, n)
  }

  function BoolText(b: bool): string { if b then "True" else "False" }

  function NullableChanged(name: string, o: bool, n: bool): string {
    "column '" + name + "'" + (" nullable changed: " + BoolText(o) + ARROW + BoolText(n))
  }

  function AddedLines(names: seq<string>, old_: map<string, Column>, new_: map<string, Column>): seq<string>
    requires forall n :: n in names ==> n in new_
  {
    if names == [] then []
    else
      var k := |names| - 1;
      assert names[k] in names;
      AddedLines(names[..k], old_, new_) + if names[k] !in old_ then [Added(new_[names[k]])] else []
  }

  function RemovedLines(names: seq<string>, new_: map<string, Column>): seq<string> {
    if names == [] then []
    else
      var k := |names| - 1;
      RemovedLines(names[..k], new_) + if names[k] !in new_ then [Removed(names[k])] else []
  }

  function ChangesOf(o: Column, n: Column): seq<string> {
    (if o.pgType != n.pgType then [TypeChanged(o.name, o.pgType, n.pgType)] else []) +
    (if o.nullable != n.nullable then [NullableChanged(o.name, o.nullable, n.nullable)] else [])
  }

  function ChangedLines(names: seq<string>, old_: map<string, Column>, new_: map<string, Column>): seq<string>
    requires forall n :: n in names ==> n in old_
  {
    if names == [] then []
    else
      var k := |names| - 1;
      assert names[k] in names;
      ChangedLines(names[..k], old_, new_) +
      if names[k] in new_ then ChangesOf(old_[names[k]], new_[names[k]]) else []
  }

  function Diff(before: seq<Column>, after: seq<Column>): seq<string> {
    AddedLines(Names(after), ByName(before), ByName(after)) +
    RemovedLines(Names(before), ByName(after)) +
    ChangedLines(Names(before), ByName(before), ByName(after))
  }

  /** The type and nullability tests on one common column. */
  method DescribeChange(name: string, oc: Column, nc: Column) returns (lines: seq<string>)
    requires oc.name == name
    ensures lines == ChangesOf(oc, nc)
  {
    lines := [];
    if oc.pgType != nc.pgType { lines := lines + [TypeChanged(name, oc.pgType, nc.pgType)]; }
    if oc.nullable != nc.nullable { lines := lines + [NullableChanged(name, oc.nullable, nc.nullable)]; }
  }

  /** `diff_schemas`: one loop for each kind of line. */
  method DiffSchemas(before: seq<Column>, after: seq<Column>) returns (diffs: seq<string>)
    ensures diffs == Diff(before, after)
  {
    var oldCols, newCols := ByName(before), ByName(after);
    ByNameNames(before);
    var added := ListAdded(Names(after), oldCols, newCols);
    var removed := ListRemoved(Names(before), newCols);
    var changed := ListChanged(Names(before), oldCols, newCols);
    return added + removed + changed;
  }

  method ListAdded(names: seq<string>, oldCols: map<string, Column>, newCols: map<string, Column>) returns (lines: seq<string>)
    requires forall n :: n in names ==> n in newCols
    ensures lines == AddedLines(names, oldCols, newCols)
  {
    lines := [];
    var i := 0;
    while i < |names|
      invariant 0 <= i <= |names| && lines == AddedLines(names[..i], oldCols, newCols)
    {
      assert names[..i + 1][..i] == names[..i];
      if names[i] !in oldCols { lines := lines + [Added(newCols[names[i]])]; }
      i := i + 1;
    }
    assert names[..i] == names;
  }

  method ListRemoved(names: seq<string>, newCols: map<string, Column>) returns (lines: seq<string>)
    ensures lines == RemovedLines(names, newCols)
  {
    lines := [];
    var i := 0;
    while i < |names|
      invariant 0 <= i <= |names| && lines == RemovedLines(names[..i], newCols)
    {
      assert names[..i + 1][..i] == names[..i];
      if names[i] !in newCols { lines := lines + [Removed(names[i])]; }
      i := i + 1;
    }
    assert names[..i] == names;
  }

  method ListChanged(names: seq<string>, oldCols: map<string, Column>, newCols: map<string, Column>) returns (lines: seq<string>)
    requires forall n :: n in names ==> n in oldCols && oldCols[n].name == n
    ensures lines == ChangedLines(names, oldCols, newCols)
  {
    lines := [];
    var i := 0;
    while i < |names|
      invariant 0 <= i <= |names| && lines == ChangedLines(names[..i], oldCols, newCols)
    {
      OneMoreChanged(names, i, oldCols, newCols);
      assert names[i] in names;
      if names[i] in newCols {
        var change := DescribeChange(names[i], oldCols[names[i]], newCols[names[i]]);
        lines := lines + change;
      }
      i := i + 1;
    }
    assert names[..i] == names;
  }

  lemma {:induction false} OneMoreChanged(names: seq<string>, i: nat, oldCols: map<string, Column>,
                                          newCols: map<string, Column>)
    requires i < |names| && forall n :: n in names ==> n in oldCols
    ensures names[i] in oldCols
    ensures ChangedLines(names[..i + 1], oldCols, newCols) == ChangedLines(names[..i], oldCols, newCols) +
      if names[i] in newCols then ChangesOf(oldCols[names[i]], newCols[names[i]]) else []
  {
    assert names[i] in names;
    assert names[..i + 1][..i] == names[..i];
  }

  lemma {:induction false} ByNameNames(cols: seq<Column>)
    ensures forall n :: n in ByName(cols) ==> ByName(cols)[n].name == n
  {
    if cols != [] { ByNameNames(cols[..|cols| - 1]); }
  }

  /** Nothing is reported exactly when both schemas give every name the same type and nullability. */
  lemma {:induction false} DiffEmptyIff(before: seq<Column>, after: seq<Column>)
    ensures Diff(before, after) == [] <==> ByName(before) == ByName(after)
  {
    var o, n := ByName(before), ByName(after);
    ByNameNames(before);
    ByNameNames(after);
    AddedEmptyIff(Names(after), o, n);
    RemovedEmptyIff(Names(before), n);
    ChangedEmptyIff(Names(before), o, n);
    if Diff(before, after) == [] {
      assert o.Keys == n.Keys;
      forall k | k in o ensures o[k] == n[k] {
        assert k in Names(before);
      }
    }
  }

  lemma {:induction false} AddedEmptyIff(names: seq<string>, o: map<string, Column>, n: map<string, Column>)
    requires forall k :: k in names ==> k in n
    ensures AddedLines(names, o, n) == [] <==> forall k :: k in names ==> k in o
  {
    if names != [] {
      var k := |names| - 1;
      AddedEmptyIff(names[..k], o, n);
      assert names == names[..k] + [names[k]];
    }
  }

  lemma {:induction false} RemovedEmptyIff(names: seq<string>, n: map<string, Column>)
    ensures RemovedLines(names, n) == [] <==> forall k :: k in names ==> k in n
  {
    if names != [] {
      var k := |names| - 1;
      RemovedEmptyIff(names[..k], n);
      assert names == names[..k] + [names[k]];
      var line := Removed(names[k]);
      assert RemovedLines(names, n) == RemovedLines(names[..k], n) + if names[k] !in n then [line] else [];
    }
  }

  ghost predicate Unchanged(names: seq<string>, o: map<string, Column>, n: map<string, Column>)
    requires forall k :: k in names ==> k in o
  {
    forall k :: k in names && k in n ==> o[k].pgType == n[k].pgType && o[k].nullable == n[k].nullable
  }

  lemma {:induction false} ChangedEmptyIff(names: seq<string>, o: map<string, Column>, n: map<string, Column>)
    requires forall k :: k in names ==> k in o
    ensures ChangedLines(names, o, n) == [] <==> Unchanged(names, o, n)
  {
    if names != [] {
      var k := |names| - 1;
      ChangedEmptyIff(names[..k], o, n);
      OneMoreChanged(names, k, o, n);
      assert names[..k + 1] == names == names[..k] + [names[k]];
      assert Unchanged(names, o, n) <==> Unchanged(names[..k], o, n) && Unchanged([names[k]], o, n);
    }
  }

  /** `s` begins with the quoted name behind `head` and ends with the old and the new value, in this order. */
  ghost predicate Says(s: string, head: string, name: string, o: string, n: string) {
    && |head| + 1 + |name| + 1 <= |s| - |o| - 3 - |n|
    && s[..|head| + 1 + |name| + 1] == head + [QUOTE] + name + [QUOTE]
    && s[|s| - |n|..] == n && s[|s| - |n| - 3..|s| - |n|] == ARROW && s[|s| - |n| - 3 - |o|..|s| - |n| - 3] == o
  }

  /** A change line names its column and goes from the old value to the new one. */
  lemma {:induction false} ChangesSay(name: string, o: string, n: string, was: bool, is_: bool)
    ensures Says(TypeChanged(name, o, n), "column ", name, Repr(o), Repr(n))
    ensures Says(NullableChanged(name, was, is_), "column ", name, if was then "True" else "False", if is_ then "True" else "False")
  {
    assert "column '" == "column " + [QUOTE] && "'" == [QUOTE];
    LineSays("column ", name, " type changed: ", Repr(o), Repr(n));
    LineSays("column ", name, " nullable changed: ", BoolText(was), BoolText(is_));
    Reassociate(" nullable changed: ", BoolText(was), BoolText(is_));
  }

  lemma {:induction false} Reassociate(middle: string, o: string, n: string)
    ensures middle + o + ARROW + n == middle + (o + ARROW + n)
  {
  }

  lemma {:induction false} LineSays(head: string, name: string, middle: string, o: string, n: string)
    ensures Says(head + [QUOTE] + name + [QUOTE] + (middle + (o + ARROW + n)), head, name, o, n)
  {
    var quoted, rest := head + [QUOTE] + name + [QUOTE], middle + (o + ARROW + n);
    assert |ARROW| == 3;
    assert (quoted + rest)[..|quoted|] == quoted;
    TailIs(quoted + middle, o, ARROW, n);
    assert quoted + rest == quoted + middle + (o + ARROW + n);
  }

  lemma {:induction false} TailIs(front: string, o: string, arrow: string, n: string)
    ensures var s := front + (o + arrow + n);
      && s[|s| - |n|..] == n && s[|s| - |n| - |arrow|..|s| - |n|] == arrow
      && s[|s| - |n| - |arrow| - |o|..|s| - |n| - |arrow|] == o
  {
  }
}
