/** Parsing the printed differences back and applying them. */
module SchemaMigration {
  import opened Wrappers
  import opened SchemaDiff

  // ---------------------------------------------------------------- regular expressions

  function UpToQuote(s: string): (n: nat)
    ensures n <= |s|
  {
    if s == "" || s[0] == QUOTE then 0 else 1 + UpToQuote(s[1..])
  }

  /** `([^']+)'` at the start of `s`. */
  function Group(s: string): Option<string> {
    var n := UpToQuote(s);
    if 0 < n < |s| then Some(s[..n]) else None
  }

  function MatchAt(keyword: string, s: string): Option<string> {
    if |keyword| < |s| && s[..|keyword|] == keyword && s[|keyword|] == QUOTE then Group(s[|keyword| + 1..]) else None
  }

  /** `re.search("<keyword>'([^']+)'", s)`: the group of the leftmost match. */
  function Search(keyword: string, s: string): Option<string> {
    if MatchAt(keyword, s).Some? then MatchAt(keyword, s)
    else if s == "" then None
    else Search(keyword, s[1..])
  }

  const ADDED := "added column "
  const REMOVED := "removed column "

  /** What one line is taken for. */
  datatype Change = Add(name: string) | Drop(name: string) | Other

  function Parse(line: string): Change {
    var a, r := Search(ADDED, line), Search(REMOVED, line);
    if a.Some? then Add(a.value) else if r.Some? then Drop(r.value) else Other
  }

  /** ADD COLUMN IF NOT EXISTS, DROP COLUMN IF EXISTS when pruning, nothing for type changes. */
  function Apply(cols: set<string>, c: Change, prune: bool): set<string> {
    match c
    case Add(n) => cols + {n}
    case Drop(n) => if prune then cols - {n} else cols
    case Other => cols
  }

  function ApplyAll(cols: set<string>, lines: seq<string>, prune: bool): set<string> {
    if lines == [] then cols
    else Apply(ApplyAll(cols, lines[..|lines| - 1], prune), Parse(lines[|lines| - 1]), prune)
  }

  /** The DDL statements that go with a change. */
  function Statements(c: Change, prune: bool): seq<Change> {
    if c.Add? || (c.Drop? && prune) then [c] else []
  }

  function Executed(lines: seq<string>, prune: bool): seq<Change> {
    if lines == [] then []
    else Executed(lines[..|lines| - 1], prune) + Statements(Parse(lines[|lines| - 1]), prune)
  }

  function ExecuteAll(cols: set<string>, statements: seq<Change>): set<string> {
    if statements == [] then cols
    else Apply(ExecuteAll(cols, statements[..|statements| - 1]), statements[|statements| - 1], true)
  }

  class Relation {
    var columns: set<string>

    /** `apply_schema_migrations`; it returns the statements it has executed. */
    method Migrate(diff: seq<string>, prune: bool) returns (executed: seq<Change>)
      modifies this
      ensures executed == Executed(diff, prune) && columns == ApplyAll(old(columns), diff, prune)
    {
      executed := [];
      var i := 0;
      while i < |diff|
        invariant 0 <= i <= |diff|
        invariant executed == Executed(diff[..i], prune) && columns == ApplyAll(old(columns), diff[..i], prune)
      {
        assert diff[..i + 1][..i] == diff[..i];
        var added, removed := Search(ADDED, diff[i]), Search(REMOVED, diff[i]);
        if added.Some? {
          columns := columns + {added.value};
          executed := executed + [Add(added.value)];
        } else if removed.Some? {
          if prune {
            columns := columns - {removed.value};
            executed := executed + [Drop(removed.value)];
          }
        }
        i := i + 1;
      }
      assert diff[..i] == diff;
    }
  }

  /** The statements returned are the whole of what was done to the table. */
  lemma {:induction false} ExecutedAccounts(cols: set<string>, lines: seq<string>, prune: bool)
    ensures ExecuteAll(cols, Executed(lines, prune)) == ApplyAll(cols, lines, prune)
  {
    if lines != [] {
      var k := |lines| - 1;
      var before, last := Executed(lines[..k], prune), Statements(Parse(lines[k]), prune);
      ExecutedAccounts(cols, lines[..k], prune);
      if last == [] {
        assert before + last == before;
      } else {
        assert (before + last)[..|before|] == before;
      }
    }
  }

  // ---------------------------------------------------------------- searching quoted text

  predicate NoQuote(s: string) {
    forall i :: 0 <= i < |s| ==> s[i] != QUOTE
  }

  predicate EndsWith(s: string, suffix: string) {
    |suffix| <= |s| && s[|s| - |suffix|..] == suffix
  }

  lemma {:induction false} UpToQuoteSkips(a: string, rest: string)
    requires NoQuote(a)
    ensures UpToQuote(a + [QUOTE] + rest) == |a|
    ensures UpToQuote(a) == |a|
  {
    if a != "" {
      assert (a + [QUOTE] + rest)[1..] == a[1..] + [QUOTE] + rest;
      UpToQuoteSkips(a[1..], rest);
    }
  }

  lemma {:induction false} GroupOf(a: string, rest: string)
    requires NoQuote(a)
    ensures Group(a + [QUOTE] + rest) == if a == "" then None else Some(a)
    ensures Group(a) == None
  {
    UpToQuoteSkips(a, rest);
    assert (a + [QUOTE] + rest)[..|a|] == a;
  }

  lemma {:induction false} SearchNoQuote(keyword: string, a: string)
    requires NoQuote(a)
    ensures Search(keyword, a) == None
  {
    if a != "" { SearchNoQuote(keyword, a[1..]); }
  }

  /** A match uses the first quote exactly when the text before it ends with the keyword. */
  lemma {:induction false} SearchStep(keyword: string, a: string, rest: string)
    requires NoQuote(keyword) && keyword != "" && NoQuote(a)
    ensures Search(keyword, a + [QUOTE] + rest) ==
      if EndsWith(a, keyword) && Group(rest).Some? then Group(rest) else Search(keyword, rest)
  {
    var s := a + [QUOTE] + rest;
    if a == "" {
      assert s[1..] == rest;
      assert s[0] == QUOTE;
    } else {
      assert s[1..] == a[1..] + [QUOTE] + rest;
      SearchStep(keyword, a[1..], rest);
      MatchAtQuote(keyword, a, rest);
      if a == keyword {
        assert !EndsWith(a[1..], keyword);
      } else if |a| > |keyword| {
        assert a[|a| - |keyword|..] == a[1..][|a| - 1 - |keyword|..];
      }
    }
  }

  lemma {:induction false} MatchAtQuote(keyword: string, a: string, rest: string)
    requires NoQuote(keyword) && NoQuote(a)
    ensures MatchAt(keyword, a + [QUOTE] + rest) == if a == keyword then Group(rest) else None
  {
    var s := a + [QUOTE] + rest;
    assert s[|a|] == QUOTE && s[|a| + 1..] == rest && s[..|a|] == a;
    assert forall i :: 0 <= i < |a| ==> s[i] == a[i];
    assert |a| < |keyword| <= |s| ==> s[..|keyword|][|a|] == QUOTE;
  }

  // ---------------------------------------------------------------- reading each kind of line

  lemma {:induction false} PlainTexts()
    ensures NoQuote(ADDED) && NoQuote(REMOVED) && ADDED != "" && REMOVED != ""
    ensures NoQuote("column ") && NoQuote(" type changed: ") && NoQuote(ARROW)
  {
  }

  lemma {:induction false} KeywordFacts()
    ensures NoQuote(ADDED) && NoQuote(REMOVED) && ADDED != "" && REMOVED != ""
    ensures !EndsWith(REMOVED, ADDED) && !EndsWith(ADDED, REMOVED)
    ensures !EndsWith("column ", ADDED) && !EndsWith("column ", REMOVED)
    ensures !EndsWith(" type changed: ", ADDED) && !EndsWith(" type changed: ", REMOVED)
    ensures !EndsWith(ARROW, ADDED) && !EndsWith(ARROW, REMOVED)
    ensures NoQuote("column ") && NoQuote(" type changed: ") && NoQuote(ARROW)
  {
    PlainTexts();
  }

  lemma {:induction false} SearchQuotedName(keyword: string, head: string, name: string, tail: string)
    requires NoQuote(keyword) && keyword != "" && NoQuote(head) && NoQuote(name) && NoQuote(tail)
    ensures Search(keyword, head + [QUOTE] + (name + [QUOTE] + tail)) ==
      if EndsWith(head, keyword) && name != "" then Some(name) else None
  {
    SearchStep(keyword, head, name + [QUOTE] + tail);
    SearchStep(keyword, name, tail);
    GroupOf(name, tail);
    GroupOf(tail, "");
    SearchNoQuote(keyword, tail);
  }

  /** Whatever the type. */
  lemma {:induction false} ReadAdded(c: Column)
    requires NoQuote(c.name) && c.name != ""
    ensures Parse(Added(c)) == Add(c.name)
  {
    KeywordFacts();
    var tail := " (" + c.pgType + ")";
    assert Added(c) == ADDED + [QUOTE] + (c.name + [QUOTE] + tail);
    SearchStep(ADDED, ADDED, c.name + [QUOTE] + tail);
    GroupOf(c.name, tail);
    assert ADDED[0..] == ADDED;
  }

  /** A name that the pattern can capture. */
  predicate CleanName(name: string) {
    NoQuote(name) && name != ""
  }

  lemma {:induction false} NoQuoteUpTo(s: string)
    ensures NoQuote(s[..UpToQuote(s)])
  {
    if s != "" && s[0] != QUOTE {
      NoQuoteUpTo(s[1..]);
      assert s[..UpToQuote(s)] == [s[0]] + s[1..][..UpToQuote(s[1..])];
    }
  }

  lemma {:induction false} GroupIsClean(keyword: string, s: string)
    ensures Search(keyword, s).Some? ==> CleanName(Search(keyword, s).value)
  {
    if MatchAt(keyword, s).Some? {
      NoQuoteUpTo(s[|keyword| + 1..]);
    } else if s != "" {
      GroupIsClean(keyword, s[1..]);
    }
  }

  /** No line is taken for a column without a name or with a quote in it. */
  lemma {:induction false} OnlyCleanNames(line: string)
    ensures Parse(line).Other? || CleanName(Parse(line).name)
  {
    GroupIsClean(ADDED, line);
    GroupIsClean(REMOVED, line);
  }

  lemma {:induction false} ReadRemoved(name: string)
    requires NoQuote(name) && name != ""
    ensures Parse(Removed(name)) == Drop(name)
  {
    KeywordFacts();
    assert Removed(name) == REMOVED + [QUOTE] + (name + [QUOTE] + "");
    SearchQuotedName(ADDED, REMOVED, name, "");
    SearchQuotedName(REMOVED, REMOVED, name, "");
    assert REMOVED[0..] == REMOVED;
  }

  lemma {:induction false} NoQuoteConcat(a: string, b: string)
    requires NoQuote(a) && NoQuote(b)
    ensures NoQuote(a + b)
  {
  }

  lemma {:induction false} NullableTail(o: bool, n: bool) returns (tail: string)
    ensures NoQuote(tail) && tail == " nullable changed: " + BoolText(o) + ARROW + BoolText(n)
  {
    var head := " nullable changed: ";
    assert NoQuote(head) && NoQuote(BoolText(o)) && NoQuote(ARROW) && NoQuote(BoolText(n));
    NoQuoteConcat(head, BoolText(o));
    NoQuoteConcat(head + BoolText(o), ARROW);
    NoQuoteConcat(head + BoolText(o) + ARROW, BoolText(n));
    tail := head + BoolText(o) + ARROW + BoolText(n);
  }

  lemma {:induction false} ReadNullable(name: string, o: bool, n: bool)
    requires NoQuote(name)
    ensures Parse(NullableChanged(name, o, n)) == Other
  {
    KeywordFacts();
    var tail := NullableTail(o, n);
    NullableShape(name, o, n);
    SearchQuotedName(ADDED, "column ", name, tail);
    SearchQuotedName(REMOVED, "column ", name, tail);
  }

  lemma {:induction false} NullableShape(name: string, o: bool, n: bool)
    ensures NullableChanged(name, o, n) ==
      "column " + [QUOTE] + (name + [QUOTE] + (" nullable changed: " + BoolText(o) + ARROW + BoolText(n)))
  {
  }

  // ---------------------------------------------------------------- type changes

  lemma {:induction false} TypeChangedShape(name: string, o: string, n: string)
    ensures TypeChanged(name, o, n) == "column " + [QUOTE] + (name + [QUOTE] + TypeText(o, n))
  {
  }

  lemma {:induction false} QuoteStays(s: string, delimited: bool)
    ensures QUOTE in s ==> QUOTE in Escape(s, delimited)
  {
    if s != "" {
      QuoteStays(s[1..], delimited);
      assert s == [s[0]] + s[1..];
      var head := EscapeChar(s[0], delimited);
      assert Escape(s, delimited) == head + Escape(s[1..], delimited);
      if s[0] == QUOTE { assert head[|head| - 1] == QUOTE; }
    }
  }

  /** Whichever delimiter it uses, a printed type has a single quote. */
  lemma {:induction false} ReprHasQuote(s: string)
    ensures QUOTE in Repr(s)
  {
    if QUOTE in s && '"' !in s {
      QuoteStays(s, false);
    } else {
      assert Repr(s)[0] == QUOTE;
    }
  }

  lemma {:induction false} GroupWithQuote(s: string)
    requires s != "" && s[0] != QUOTE && QUOTE in s
    ensures Group(s).Some?
  {
    FindsQuote(s);
  }

  lemma {:induction false} FindsQuote(s: string)
    requires QUOTE in s
    ensures UpToQuote(s) < |s|
  {
    if s[0] != QUOTE {
      assert s == [s[0]] + s[1..];
      FindsQuote(s[1..]);
    }
  }

  /** Whether a type-change line is taken for a column announcement: only when the name ends with the keyword, or when
      the printed types contain an announcement themselves. */
  lemma {:induction false} SearchTypeChange(keyword: string, name: string, o: string, n: string)
    requires (keyword == ADDED || keyword == REMOVED) && NoQuote(name)
    ensures Search(keyword, TypeChanged(name, o, n)) ==
      if EndsWith(name, keyword) then Group(TypeText(o, n)) else Search(keyword, TypeText(o, n))
    ensures Group(TypeText(o, n)).Some?
  {
    KeywordFacts();
    TypeChangedShape(name, o, n);
    SearchStep(keyword, "column ", name + [QUOTE] + TypeText(o, n));
    SearchStep(keyword, name, TypeText(o, n));
    TypeTextGroups(o, n);
  }

  lemma {:induction false} TypeTextGroups(o: string, n: string)
    ensures Group(TypeText(o, n)).Some?
  {
    ReprHasQuote(o);
    QuoteBehind(" type changed: ", Repr(o), ARROW, Repr(n));
  }

  lemma {:induction false} QuoteBehind(head: string, o: string, arrow: string, n: string)
    requires head != "" && head[0] != QUOTE && QUOTE in o
    ensures Group(head + (o + arrow + n)).Some?
  {
    var k :| 0 <= k < |o| && o[k] == QUOTE;
    assert (head + (o + arrow + n))[|head| + k] == QUOTE;
    GroupWithQuote(head + (o + arrow + n));
  }

  /** Types without quotes, backslashes and control characters are printed as they are. */
  predicate PlainType(t: string) {
    NoQuote(t) && '\\' !in t && forall i :: 0 <= i < |t| ==> 32 <= t[i] as int != 127
  }

  lemma {:induction false} EscapePlain(s: string, delimited: bool)
    requires PlainType(s)
    ensures Escape(s, delimited) == s
  {
    if s != "" {
      assert s == [s[0]] + s[1..];
      EscapePlain(s[1..], delimited);
    }
  }

  /** The end of a type-change line between plain types, from the old type on. */
  function TypeTail(o: string, n: string): string {
    o + [QUOTE] + (ARROW + [QUOTE] + (n + [QUOTE] + ""))
  }

  lemma {:induction false} PlainTypeText(o: string, n: string)
    requires PlainType(o) && PlainType(n)
    ensures TypeText(o, n) == " type changed: " + [QUOTE] + TypeTail(o, n)
  {
    ReprPlain(o);
    ReprPlain(n);
    Regroup(" type changed: ", [QUOTE], o, ARROW, n);
  }

  lemma {:induction false} ReprPlain(s: string)
    requires PlainType(s)
    ensures Repr(s) == [QUOTE] + s + [QUOTE]
  {
    EscapePlain(s, true);
    assert "'" == [QUOTE];
  }

  lemma {:induction false} Regroup(head: string, q: string, o: string, arrow: string, n: string)
    ensures head + ((q + o + q) + arrow + (q + n + q)) == head + q + (o + q + (arrow + q + (n + q + "")))
  {
  }

  /** For plain types the printed types contain an announcement exactly when the old type ends with a keyword. */
  lemma {:induction false} SearchPlainTypes(keyword: string, o: string, n: string)
    requires (keyword == ADDED || keyword == REMOVED) && PlainType(o) && PlainType(n)
    ensures Search(keyword, TypeText(o, n)) == if EndsWith(o, keyword) then Some(ARROW) else None
    ensures Group(TypeText(o, n)) == Some(" type changed: ")
  {
    KeywordFacts();
    PlainTypeText(o, n);
    var rest := n + [QUOTE] + "";
    GroupOf(" type changed: ", TypeTail(o, n));
    SearchStep(keyword, " type changed: ", TypeTail(o, n));
    SearchStep(keyword, o, ARROW + [QUOTE] + rest);
    GroupOf(ARROW, rest);
    SearchQuotedName(keyword, ARROW, n, "");
  }

  predicate Announces(text: string) {
    Search(ADDED, text).Some? || Search(REMOVED, text).Some?
  }

  /** A type change that is read as something else. */
  predicate Confusing(o: Column, n: Column) {
    o.pgType != n.pgType &&
    (EndsWith(o.name, ADDED) || EndsWith(o.name, REMOVED) || Announces(TypeText(o.pgType, n.pgType)))
  }

  lemma {:induction false} ReadTypeChange(o: Column, n: Column)
    requires NoQuote(o.name) && o.pgType != n.pgType
    ensures Parse(TypeChanged(o.name, o.pgType, n.pgType)) == Other <==> !Confusing(o, n)
  {
    SearchTypeChange(ADDED, o.name, o.pgType, n.pgType);
    SearchTypeChange(REMOVED, o.name, o.pgType, n.pgType);
  }

  // ---------------------------------------------------------------- the whole report

  ghost predicate Plain(cols: seq<Column>) {
    forall i :: 0 <= i < |cols| ==> NoQuote(cols[i].name)
  }

  predicate PlainColumn(c: Column, name: string) {
    c.name == name && NoQuote(name)
  }

  lemma {:induction false} PlainByName(cols: seq<Column>)
    requires Plain(cols)
    ensures forall n :: n in ByName(cols) ==> PlainColumn(ByName(cols)[n], n)
  {
    if cols != [] { PlainByName(cols[..|cols| - 1]); }
  }

  function Reads(lines: seq<string>): seq<Change> {
    seq(|lines|, i requires 0 <= i < |lines| => Parse(lines[i]))
  }

  function AddNames(cs: seq<Change>): seq<string> {
    if cs == [] then []
    else
      var k := |cs| - 1;
      AddNames(cs[..k]) + if cs[k].Add? then [cs[k].name] else []
  }

  function DropNames(cs: seq<Change>): seq<string> {
    if cs == [] then []
    else
      var k := |cs| - 1;
      DropNames(cs[..k]) + if cs[k].Drop? then [cs[k].name] else []
  }

  function Adds(lines: seq<string>): seq<string> { AddNames(Reads(lines)) }

  function Drops(lines: seq<string>): seq<string> { DropNames(Reads(lines)) }

  /** The names of `names` that are not keys of `m`, in order. */
  function Missing(names: seq<string>, m: map<string, Column>): seq<string> {
    if names == [] then []
    else
      var k := |names| - 1;
      Missing(names[..k], m) + if names[k] !in m then [names[k]] else []
  }

  lemma {:induction false} AddNamesAppend(a: seq<Change>, b: seq<Change>)
    ensures AddNames(a + b) == AddNames(a) + AddNames(b)
  {
    if b == [] {
      assert a + b == a;
    } else {
      AddNamesAppend(a, b[..|b| - 1]);
      assert (a + b)[..|a| + |b| - 1] == a + b[..|b| - 1];
    }
  }

  lemma {:induction false} DropNamesAppend(a: seq<Change>, b: seq<Change>)
    ensures DropNames(a + b) == DropNames(a) + DropNames(b)
  {
    if b == [] {
      assert a + b == a;
    } else {
      DropNamesAppend(a, b[..|b| - 1]);
      assert (a + b)[..|a| + |b| - 1] == a + b[..|b| - 1];
    }
  }

  lemma {:induction false} LinesAppend(a: seq<string>, b: seq<string>)
    ensures Adds(a + b) == Adds(a) + Adds(b) && Drops(a + b) == Drops(a) + Drops(b)
  {
    assert Reads(a + b) == Reads(a) + Reads(b);
    AddNamesAppend(Reads(a), Reads(b));
    DropNamesAppend(Reads(a), Reads(b));
  }

  lemma {:induction false} AppendLine(lines: seq<string>, line: string)
    ensures Adds(lines + [line]) == if Parse(line).Add? then Adds(lines) + [Parse(line).name] else Adds(lines)
    ensures Drops(lines + [line]) == if Parse(line).Drop? then Drops(lines) + [Parse(line).name] else Drops(lines)
  {
    LinesAppend(lines, [line]);
    OneLine(line);
  }

  lemma {:induction false} OneLine(line: string)
    ensures Adds([line]) == if Parse(line).Add? then [Parse(line).name] else []
    ensures Drops([line]) == if Parse(line).Drop? then [Parse(line).name] else []
  {
    var c := Parse(line);
    assert Reads([line]) == [c] && [c][..0] == [];
    assert AddNames([c]) == AddNames([c][..0]) + if c.Add? then [c.name] else [];
    assert DropNames([c]) == DropNames([c][..0]) + if c.Drop? then [c.name] else [];
  }

  lemma {:induction false} ThreeParts(a: seq<string>, r: seq<string>, c: seq<string>)
    ensures Adds(a + r + c) == Adds(a) + Adds(r) + Adds(c) && Drops(a + r + c) == Drops(a) + Drops(r) + Drops(c)
  {
    LinesAppend(a, r);
    LinesAppend(a + r, c);
  }

  lemma {:induction false} ReadAddedLines(names: seq<string>, o: map<string, Column>, n: map<string, Column>)
    requires forall k :: k in names ==> k in n && n[k].name == k
    requires forall k :: k in Missing(names, o) ==> CleanName(k)
    ensures var lines := AddedLines(names, o, n);
      Adds(lines) == Missing(names, o) && Drops(lines) == []
  {
    if names != [] {
      var k := |names| - 1;
      assert names[k] in names;
      assert forall x :: x in Missing(names[..k], o) ==> x in Missing(names, o);
      ReadAddedLines(names[..k], o, n);
      if names[k] !in o {
        assert Missing(names, o)[|Missing(names[..k], o)|] == names[k];
        assert CleanName(names[k]);
        ReadAdded(n[names[k]]);
        AppendLine(AddedLines(names[..k], o, n), Added(n[names[k]]));
      } else {
        assert AddedLines(names, o, n) == AddedLines(names[..k], o, n);
      }
    }
  }

  lemma {:induction false} ReadRemovedLines(names: seq<string>, n: map<string, Column>)
    requires forall k :: k in Missing(names, n) ==> CleanName(k)
    ensures var lines := RemovedLines(names, n);
      Drops(lines) == Missing(names, n) && Adds(lines) == []
  {
    if names != [] {
      var k := |names| - 1;
      assert names[k] in names;
      assert forall x :: x in Missing(names[..k], n) ==> x in Missing(names, n);
      ReadRemovedLines(names[..k], n);
      if names[k] !in n {
        assert Missing(names, n)[|Missing(names[..k], n)|] == names[k];
        assert CleanName(names[k]);
        ReadRemoved(names[k]);
        AppendLine(RemovedLines(names[..k], n), Removed(names[k]));
      } else {
        assert RemovedLines(names, n) == RemovedLines(names[..k], n);
      }
    }
  }

  lemma {:induction false} ReadChanges(o: Column, n: Column)
    requires NoQuote(o.name)
    ensures var lines := ChangesOf(o, n);
      Adds(lines) == [] && Drops(lines) == [] <==> !Confusing(o, n)
  {
    ReadNullable(o.name, o.nullable, n.nullable);
    var t := if o.pgType != n.pgType then [TypeChanged(o.name, o.pgType, n.pgType)] else [];
    var u := if o.nullable != n.nullable then [NullableChanged(o.name, o.nullable, n.nullable)] else [];
    LinesAppend(t, u);
    if u != [] { OneLine(u[0]); }
    if t != [] {
      OneLine(t[0]);
      ReadTypeChange(o, n);
    }
  }

  /** The lines announce the added columns with these names, one by one. */
  ghost predicate AnnounceAdded(lines: seq<string>, names: seq<string>, n: map<string, Column>) {
    |lines| == |names| && forall i :: 0 <= i < |lines| ==> names[i] in n && lines[i] == Added(n[names[i]])
  }

  ghost predicate AnnounceRemoved(lines: seq<string>, names: seq<string>) {
    |lines| == |names| && forall i :: 0 <= i < |lines| ==> lines[i] == Removed(names[i])
  }

  lemma {:induction false} AddedInOrder(names: seq<string>, o: map<string, Column>, n: map<string, Column>)
    requires forall k :: k in names ==> k in n
    ensures AnnounceAdded(AddedLines(names, o, n), Missing(names, o), n)
  {
    if names != [] { AddedInOrder(names[..|names| - 1], o, n); }
  }

  lemma {:induction false} RemovedInOrder(names: seq<string>, n: map<string, Column>)
    ensures AnnounceRemoved(RemovedLines(names, n), Missing(names, n))
  {
    if names != [] { RemovedInOrder(names[..|names| - 1], n); }
  }

  lemma {:induction false} ThirdsOf(a: seq<string>, r: seq<string>, c: seq<string>)
    ensures var all := a + r + c;
      all[..|a|] == a && all[|a|..|a| + |r|] == r && all[|a| + |r|..] == c
  {
  }

  /** A report announces the added columns, then the removed ones, each in their own order, then the changes. */
  lemma {:induction false} ReportInOrder(before: seq<Column>, after: seq<Column>)
    ensures var o, n, lines := ByName(before), ByName(after), Diff(before, after);
      var added, removed := Missing(Names(after), o), Missing(Names(before), n);
      && |added| + |removed| <= |lines|
      && AnnounceAdded(lines[..|added|], added, n)
      && AnnounceRemoved(lines[|added|..|added| + |removed|], removed)
      && lines[|added| + |removed|..] == ChangedLines(Names(before), o, n)
  {
    var o, n := ByName(before), ByName(after);
    AddedInOrder(Names(after), o, n);
    RemovedInOrder(Names(before), n);
    ThirdsOf(AddedLines(Names(after), o, n), RemovedLines(Names(before), n), ChangedLines(Names(before), o, n));
  }

  ghost predicate NoneConfusing(names: seq<string>, o: map<string, Column>, n: map<string, Column>)
    requires forall k :: k in names ==> k in o
  {
    forall k :: k in names && k in n ==> !Confusing(o[k], n[k])
  }

  lemma {:induction false} ReadChangedLines(names: seq<string>, o: map<string, Column>, n: map<string, Column>)
    requires forall k :: k in names ==> k in o && PlainColumn(o[k], k)
    requires forall k :: k in n ==> PlainColumn(n[k], k)
    ensures var lines := ChangedLines(names, o, n);
      Adds(lines) == [] && Drops(lines) == [] <==> NoneConfusing(names, o, n)
  {
    if names != [] {
      var k := |names| - 1;
      assert names == names[..k] + [names[k]];
      assert forall x :: x in names <==> x in names[..k] || x == names[k];
      ReadChangedLines(names[..k], o, n);
      if names[k] in n {
        ReadChanges(o[names[k]], n[names[k]]);
        LinesAppend(ChangedLines(names[..k], o, n), ChangesOf(o[names[k]], n[names[k]]));
      } else {
        assert ChangedLines(names, o, n) == ChangedLines(names[..k], o, n);
      }
      assert NoneConfusing(names, o, n) <==>
        NoneConfusing(names[..k], o, n) && (names[k] in n ==> !Confusing(o[names[k]], n[names[k]]));
    }
  }

  lemma {:induction false} NamesReadAreNonEmpty(lines: seq<string>)
    ensures "" !in Adds(lines) && "" !in Drops(lines)
  {
    if lines != [] {
      var k := |lines| - 1;
      assert lines == lines[..k] + [lines[k]];
      NamesReadAreNonEmpty(lines[..k]);
      AppendLine(lines[..k], lines[k]);
      OnlyCleanNames(lines[k]);
    }
  }

  ghost predicate NoEmptyName(before: seq<Column>, after: seq<Column>) {
    "" !in Missing(Names(after), ByName(before)) && "" !in Missing(Names(before), ByName(after))
  }

  /** Every added and removed name is non-empty, and no common column has a confusing type change. */
  ghost predicate Readable(before: seq<Column>, after: seq<Column>) {
    NoEmptyName(before, after) && NoneConfusing(Names(before), ByName(before), ByName(after))
  }

  lemma {:induction false} CombineParts(a: seq<string>, r: seq<string>, c: seq<string>, added: seq<string>, removed: seq<string>)
    requires Adds(a) == added && Drops(a) == [] && Adds(r) == [] && Drops(r) == removed
    ensures Adds(a + r + c) == added + Adds(c) && Drops(a + r + c) == removed + Drops(c)
  {
    ThreeParts(a, r, c);
  }

  /** The names of added and removed columns can be captured. */
  ghost predicate NamesClean(before: seq<Column>, after: seq<Column>) {
    && (forall k :: k in Missing(Names(after), ByName(before)) ==> CleanName(k))
    && (forall k :: k in Missing(Names(before), ByName(after)) ==> CleanName(k))
  }

  lemma {:induction false} PlainNamesClean(before: seq<Column>, after: seq<Column>)
    requires Plain(before) && Plain(after) && NoEmptyName(before, after)
    ensures NamesClean(before, after)
  {
    PlainByName(before);
    PlainByName(after);
    MissingElements(Names(after), ByName(before));
    MissingElements(Names(before), ByName(after));
    forall k | k in Names(before) ensures NoQuote(k) {
      assert PlainColumn(ByName(before)[k], k);
    }
    forall k | k in Names(after) ensures NoQuote(k) {
      assert PlainColumn(ByName(after)[k], k);
    }
  }

  lemma {:induction false} AnnouncedLines(before: seq<Column>, after: seq<Column>)
    requires NamesClean(before, after)
    ensures var o, n := ByName(before), ByName(after);
      var a, r := AddedLines(Names(after), o, n), RemovedLines(Names(before), n);
      && Adds(a) == Missing(Names(after), o) && Drops(a) == []
      && Adds(r) == [] && Drops(r) == Missing(Names(before), n)
  {
    ByNameNames(after);
    ReadAddedLines(Names(after), ByName(before), ByName(after));
    ReadRemovedLines(Names(before), ByName(after));
  }

  lemma {:induction false} ReadBack(before: seq<Column>, after: seq<Column>)
    requires Plain(before) && Plain(after) && NoEmptyName(before, after)
    ensures var o, n := ByName(before), ByName(after);
      var c := ChangedLines(Names(before), o, n);
      && Adds(Diff(before, after)) == Missing(Names(after), o) + Adds(c)
      && Drops(Diff(before, after)) == Missing(Names(before), n) + Drops(c)
  {
    var o, n := ByName(before), ByName(after);
    PlainNamesClean(before, after);
    AnnouncedLines(before, after);
    CombineParts(AddedLines(Names(after), o, n), RemovedLines(Names(before), n), ChangedLines(Names(before), o, n),
                 Missing(Names(after), o), Missing(Names(before), n));
  }

  lemma {:induction false} ChangesRead(before: seq<Column>, after: seq<Column>)
    requires Plain(before) && Plain(after)
    ensures var c := ChangedLines(Names(before), ByName(before), ByName(after));
      Adds(c) == [] && Drops(c) == [] <==> NoneConfusing(Names(before), ByName(before), ByName(after))
  {
    PlainByName(before);
    PlainByName(after);
    ReadChangedLines(Names(before), ByName(before), ByName(after));
  }

  /** The names read from the lines are the added and the removed ones. */
  ghost predicate ReadsBack(before: seq<Column>, after: seq<Column>, lines: seq<string>) {
    && Adds(lines) == Missing(Names(after), ByName(before))
    && Drops(lines) == Missing(Names(before), ByName(after))
  }

  /** For names without quotes, whatever the types: the migration reads back exactly the added and the removed names,
      in order, if and only if the report is readable in this sense. */
  lemma {:induction false} ReadsBackIff(before: seq<Column>, after: seq<Column>)
    requires Plain(before) && Plain(after)
    ensures ReadsBack(before, after, Diff(before, after)) <==> Readable(before, after)
  {
    NamesReadAreNonEmpty(Diff(before, after));
    ChangesRead(before, after);
    if NoEmptyName(before, after) {
      ReadBack(before, after);
      var c := ChangedLines(Names(before), ByName(before), ByName(after));
      NothingAppended(Missing(Names(after), ByName(before)), Adds(c));
      NothingAppended(Missing(Names(before), ByName(after)), Drops(c));
    }
  }

  lemma {:induction false} NothingAppended(a: seq<string>, b: seq<string>)
    ensures a + b == a <==> b == []
  {
    assert |a + b| == |a| + |b|;
  }

  // ---------------------------------------------------------------- the migrated table

  lemma {:induction false} ApplyLines(cols: set<string>, lines: seq<string>, prune: bool, adds: set<string>, drops: set<string>)
    requires forall x :: x in Adds(lines) ==> x in adds
    requires forall x :: x in Drops(lines) ==> x in drops
    requires adds !! drops
    ensures var out := ApplyAll(cols, lines, prune);
      && (forall x :: x in Adds(lines) ==> x in out)
      && (forall x :: x in out ==> (x in cols || x in Adds(lines)) && (prune ==> x !in Drops(lines)))
      && (forall x :: x in cols && (!prune || x !in Drops(lines)) ==> x in out)
  {
    if lines != [] {
      var k := |lines| - 1;
      assert lines == lines[..k] + [lines[k]];
      AppendLine(lines[..k], lines[k]);
      ApplyLines(cols, lines[..k], prune, adds, drops);
    }
  }

  lemma {:induction false} MissingElements(names: seq<string>, m: map<string, Column>)
    ensures forall x :: x in Missing(names, m) <==> x in names && x !in m
  {
    if names != [] {
      var k := |names| - 1;
      MissingElements(names[..k], m);
      assert names == names[..k] + [names[k]];
    }
  }

  ghost function ColumnNames(cols: seq<Column>): set<string> {
    ByName(cols).Keys
  }

  lemma {:induction false} ApplyAppend(cols: set<string>, a: seq<string>, b: seq<string>, prune: bool)
    ensures ApplyAll(cols, a + b, prune) == ApplyAll(ApplyAll(cols, a, prune), b, prune)
  {
    if b == [] {
      assert a + b == a;
    } else {
      var k := |b| - 1;
      ApplyAppend(cols, a, b[..k], prune);
      assert (a + b)[..|a| + k] == a + b[..k] && (a + b)[|a| + k] == b[k];
    }
  }

  /** What the last line that mentions the column is taken for. */
  function LastRead(lines: seq<string>, name: string): Change {
    if lines == [] then Other
    else
      var c := Parse(lines[|lines| - 1]);
      if !c.Other? && c.name == name then c else LastRead(lines[..|lines| - 1], name)
  }

  /** With pruning the last line about a column decides, without pruning any line that adds it. */
  lemma {:induction false} LinesDecide(cols: set<string>, lines: seq<string>, name: string)
    ensures name in ApplyAll(cols, lines, true) <==>
      LastRead(lines, name).Add? || (LastRead(lines, name).Other? && name in cols)
    ensures name in ApplyAll(cols, lines, false) <==> name in cols || name in Adds(lines)
    ensures !LastRead(lines, name).Other? || name in Adds(lines) ==> CleanName(name)
  {
    if lines != [] {
      var k := |lines| - 1;
      assert lines == lines[..k] + [lines[k]];
      LinesDecide(cols, lines[..k], name);
      AppendLine(lines[..k], lines[k]);
      OnlyCleanNames(lines[k]);
    }
  }

  /** Announcements of columns with clean names turn the old columns into the new ones. */
  lemma {:induction false} AnnouncedMigrate(before: seq<Column>, after: seq<Column>)
    requires NamesClean(before, after)
    ensures var o, n := ByName(before), ByName(after);
      ApplyAll(ColumnNames(before), AddedLines(Names(after), o, n) + RemovedLines(Names(before), n), true) == ColumnNames(after)
  {
    var o, n := ByName(before), ByName(after);
    var a, r := AddedLines(Names(after), o, n), RemovedLines(Names(before), n);
    AnnouncedLines(before, after);
    LinesAppend(a, r);
    MissingElements(Names(after), o);
    MissingElements(Names(before), n);
    ApplyLines(ColumnNames(before), a + r, true, ColumnNames(after) - ColumnNames(before), ColumnNames(before) - ColumnNames(after));
  }

  /** The change lines that are taken for announcements leave these columns as they are: the last one about a column
      adds it exactly if it is there. */
  ghost predicate LeavesAlone(cols: set<string>, lines: seq<string>) {
    forall name :: !LastRead(lines, name).Other? ==> (LastRead(lines, name).Add? <==> name in cols)
  }

  lemma {:induction false} LeavesAloneIff(cols: set<string>, lines: seq<string>)
    ensures ApplyAll(cols, lines, true) == cols <==> LeavesAlone(cols, lines)
  {
    forall name ensures name in ApplyAll(cols, lines, true) <==>
      LastRead(lines, name).Add? || (LastRead(lines, name).Other? && name in cols)
    {
      LinesDecide(cols, lines, name);
    }
  }

  function Changes(before: seq<Column>, after: seq<Column>): seq<string> {
    ChangedLines(Names(before), ByName(before), ByName(after))
  }

  /** For any two schemas: with pruning the migration reaches exactly the new columns if and only if the names of added
      and removed columns can be captured, and the change lines leave the new columns alone. */
  lemma {:induction false} PrunedMigrationIff(before: seq<Column>, after: seq<Column>)
    ensures ApplyAll(ColumnNames(before), Diff(before, after), true) == ColumnNames(after) <==>
      NamesClean(before, after) && LeavesAlone(ColumnNames(after), Changes(before, after))
  {
    var o, n := ByName(before), ByName(after);
    MissingElements(Names(after), o);
    MissingElements(Names(before), n);
    if ApplyAll(ColumnNames(before), Diff(before, after), true) == ColumnNames(after) {
      forall k | k in Missing(Names(after), o) || k in Missing(Names(before), n) ensures CleanName(k) {
        LinesDecide(ColumnNames(before), Diff(before, after), k);
      }
    }
    if NamesClean(before, after) {
      AnnouncedMigrate(before, after);
      ApplyAppend(ColumnNames(before), AddedLines(Names(after), o, n) + RemovedLines(Names(before), n), Changes(before, after), true);
      LeavesAloneIff(ColumnNames(after), Changes(before, after));
    }
  }

  /** The names that the lines for removed and changed columns add. */
  function AddedByTheRest(before: seq<Column>, after: seq<Column>): seq<string> {
    Adds(RemovedLines(Names(before), ByName(after))) + Adds(Changes(before, after))
  }

  lemma {:induction false} UnprunedColumns(before: seq<Column>, after: seq<Column>, k: string)
    ensures k in ApplyAll(ColumnNames(before), Diff(before, after), false) <==>
      || k in ColumnNames(before) || k in Adds(AddedLines(Names(after), ByName(before), ByName(after)))
      || k in AddedByTheRest(before, after)
    ensures k in ApplyAll(ColumnNames(before), Diff(before, after), false) ==> k in ColumnNames(before) || CleanName(k)
  {
    var o, n := ByName(before), ByName(after);
    LinesDecide(ColumnNames(before), Diff(before, after), k);
    ThreeParts(AddedLines(Names(after), o, n), RemovedLines(Names(before), n), Changes(before, after));
  }

  ghost predicate AddedClean(before: seq<Column>, after: seq<Column>) {
    forall k :: k in Missing(Names(after), ByName(before)) ==> CleanName(k)
  }

  lemma {:induction false} AddedAreMissing(before: seq<Column>, after: seq<Column>)
    requires AddedClean(before, after)
    ensures forall k :: k in Adds(AddedLines(Names(after), ByName(before), ByName(after))) <==>
      k in ColumnNames(after) && k !in ColumnNames(before)
  {
    ByNameNames(after);
    ReadAddedLines(Names(after), ByName(before), ByName(after));
    MissingElements(Names(after), ByName(before));
  }

  /** Without pruning it reaches the union of both if and only if the names of added columns can be captured, and the
      lines for removed and changed columns add no column that is in neither. */
  lemma {:induction false} UnprunedMigrationIff(before: seq<Column>, after: seq<Column>)
    ensures ApplyAll(ColumnNames(before), Diff(before, after), false) == ColumnNames(before) + ColumnNames(after) <==>
      AddedClean(before, after) &&
      forall k :: k in AddedByTheRest(before, after) ==> k in ColumnNames(before) + ColumnNames(after)
  {
    var result, union := ApplyAll(ColumnNames(before), Diff(before, after), false), ColumnNames(before) + ColumnNames(after);
    if result == union {
      forall k | k in Missing(Names(after), ByName(before)) ensures CleanName(k) {
        MissingElements(Names(after), ByName(before));
        UnprunedColumns(before, after, k);
      }
      forall k | k in AddedByTheRest(before, after) ensures k in union {
        UnprunedColumns(before, after, k);
      }
    }
    if AddedClean(before, after) && forall k :: k in AddedByTheRest(before, after) ==> k in union {
      AddedAreMissing(before, after);
      forall k ensures k in result <==> k in union {
        UnprunedColumns(before, after, k);
      }
    }
  }

  /** A readable report turns the old columns into exactly the new ones with pruning, and into the union of both
      without. */
  lemma {:induction false} MigrationReachesNewSchema(before: seq<Column>, after: seq<Column>)
    requires Plain(before) && Plain(after) && Readable(before, after)
    ensures ApplyAll(ColumnNames(before), Diff(before, after), true) == ColumnNames(after)
    ensures ApplyAll(ColumnNames(before), Diff(before, after), false) == ColumnNames(before) + ColumnNames(after)
  {
    var c := Changes(before, after);
    ChangesRead(before, after);
    PlainNamesClean(before, after);
    AnnouncedLines(before, after);
    NothingRead(c);
    assert AddedByTheRest(before, after) == [];
    PrunedMigrationIff(before, after);
    UnprunedMigrationIff(before, after);
  }

  lemma {:induction false} NothingRead(lines: seq<string>)
    requires Adds(lines) == [] && Drops(lines) == []
    ensures forall name :: LastRead(lines, name).Other?
  {
    if lines != [] {
      var k := |lines| - 1;
      assert lines == lines[..k] + [lines[k]];
      AppendLine(lines[..k], lines[k]);
      NothingRead(lines[..k]);
    }
  }

  /** An unreadable one: changing the type of a column whose name ends with "added column " adds a column
      called " type changed: ". */
  lemma {:induction false} MisreadTypeChange(name: string, o: string, n: string, prune: bool)
    requires NoQuote(name) && PlainType(o) && PlainType(n) && o != n && EndsWith(name, ADDED)
    ensures var before, after := [Column(name, o, true)], [Column(name, n, true)];
      Diff(before, after) == [TypeChanged(name, o, n)] &&
      ApplyAll({name}, Diff(before, after), prune) == {name, " type changed: "}
  {
    var before, after := [Column(name, o, true)], [Column(name, n, true)];
    var b, a := ByName(before), ByName(after);
    OneColumn(before[0]);
    OneColumn(after[0]);
    OneName(name, b, a);
    SearchTypeChange(ADDED, name, o, n);
    SearchPlainTypes(ADDED, o, n);
    ApplyOne({name}, TypeChanged(name, o, n), prune);
  }

  lemma {:induction false} ApplyOne(cols: set<string>, line: string, prune: bool)
    ensures ApplyAll(cols, [line], prune) == Apply(cols, Parse(line), prune)
  {
    assert [line][..0] == [];
    assert ApplyAll(cols, [line], prune) == Apply(ApplyAll(cols, [line][..0], prune), Parse(line), prune);
  }

  lemma {:induction false} OneColumn(c: Column)
    ensures ByName([c]) == map[c.name := c] && Names([c]) == [c.name]
  {
    assert [c][..0] == [];
    assert ByName([c][..0]) == map[] && Names([c][..0]) == [];
    assert ByName([c]) == ByName([c][..0])[c.name := c];
  }

  lemma {:induction false} OneName(name: string, b: map<string, Column>, a: map<string, Column>)
    requires name in b && name in a
    ensures AddedLines([name], b, a) == [] && RemovedLines([name], a) == []
    ensures ChangedLines([name], b, a) == ChangesOf(b[name], a[name])
  {
    assert [name][..0] == [];
    assert ChangedLines([name], b, a) == ChangedLines([name][..0], b, a) + ChangesOf(b[name], a[name]);
  }

  lemma {:induction false} TwoColumns(c: Column, d: Column)
    requires c.name != d.name
    ensures ByName([c, d]) == map[c.name := c, d.name := d] && Names([c, d]) == [c.name, d.name]
  {
    assert [c, d][..1] == [c];
    OneColumn(c);
    assert ByName([c, d]) == ByName([c, d][..1])[d.name := d];
  }

  lemma {:induction false} TwoNames(x: string, y: string, b: map<string, Column>, a: map<string, Column>)
    requires x in b && y in b && x in a && y in a && b[y] == a[y]
    ensures Missing([x, y], a) == [] && Missing([x, y], b) == []
    ensures ChangedLines([x, y], b, a) == ChangesOf(b[x], a[x])
  {
    assert [x, y][..1] == [x] && [x][..0] == [];
    assert Missing([x][..0], a) == [] && Missing([x], a) == [] && Missing([x], b) == [];
    OneName(x, b, a);
    assert ChangedLines([x, y], b, a) == ChangedLines([x, y][..1], b, a) + ChangesOf(b[y], a[y]);
  }

  /** Two schemas that differ in the type of one column. */
  function WithOther(name: string, pgType: string, t: string): seq<Column> {
    [Column(name, pgType, true), Column(" type changed: ", t, true)]
  }

  lemma {:induction false} OneTypeChanges(name: string, o: string, n: string, t: string)
    requires name != " type changed: " && o != n
    ensures var before, after := WithOther(name, o, t), WithOther(name, n, t);
      && NamesClean(before, after) && Changes(before, after) == [TypeChanged(name, o, n)]
      && ColumnNames(after) == {name, " type changed: "}
      && name in Names(before) && name in ByName(after)
      && ByName(before)[name] == before[0] && ByName(after)[name] == after[0]
  {
    var before, after := WithOther(name, o, t), WithOther(name, n, t);
    TwoColumns(before[0], before[1]);
    TwoColumns(after[0], after[1]);
    TwoNames(name, before[1].name, ByName(before), ByName(after));
  }

  /** A report need not be readable for the migration to succeed: the column that the misread line adds may be there. */
  lemma {:induction false} UnreadableCanMigrate(name: string, o: string, n: string, t: string)
    requires NoQuote(name) && PlainType(o) && PlainType(n) && o != n && EndsWith(name, ADDED)
    ensures var before, after := WithOther(name, o, t), WithOther(name, n, t);
      !Readable(before, after) && ApplyAll(ColumnNames(before), Diff(before, after), true) == ColumnNames(after)
  {
    var before, after := WithOther(name, o, t), WithOther(name, n, t);
    assert name != " type changed: " by { KeywordFacts(); }
    OneTypeChanges(name, o, n, t);
    assert Confusing(ByName(before)[name], ByName(after)[name]);
    ReadsOther(name, o, n);
    PrunedMigrationIff(before, after);
  }

  lemma {:induction false} ReadsOther(name: string, o: string, n: string)
    requires NoQuote(name) && PlainType(o) && PlainType(n) && EndsWith(name, ADDED)
    ensures forall k :: LastRead([TypeChanged(name, o, n)], k) == if k == " type changed: " then Add(k) else Other
  {
    SearchTypeChange(ADDED, name, o, n);
    SearchPlainTypes(ADDED, o, n);
    var lines := [TypeChanged(name, o, n)];
    assert forall k :: LastRead(lines[..0], k) == Other;
  }
}
