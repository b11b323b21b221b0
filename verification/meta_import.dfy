/** The bulk override import (bot.py, `_apply_meta_csv_string`): every data
    row is validated, merged into the override table when valid, and counted
    as updated or skipped. Rows arrive already split into their four cells. */
module MetaImport {
  import opened Wrappers
  import opened Seqs
  import opened Text
  import opened Meta

  /** One row's Class, Spec, Tier and Roles cells; a missing cell is `""`. */
  datatype CsvRow = CsvRow(klass: string, spec: string, tier: string, roles: string)

  /** Why a row was rejected. */
  datatype Problem =
    | MissingClassSpec
    | UnknownClassSpec(klass: string, spec: string)
    | InvalidTier(tier: string)
    | InvalidRoles(bad: seq<string>)

  /** A rejected row and its line number in the file. */
  datatype RowError = RowError(line: nat, problem: Problem)

  /** What a valid row asks to set; an absent field is left alone. */
  datatype Change = Change(key: SpecKey, tier: Option<string>, roles: Option<seq<string>>)

  datatype Checked = Accept(change: Change) | Reject(problem: Problem)

  /** The table after a merge, and whether the merge altered a field. */
  datatype Merged = Merged(overrides: Overrides, changed: bool)

  /** The new table, `updated`, `skipped` and the errors. */
  datatype Report = Report(overrides: Overrides, updated: nat, skipped: nat, errors: seq<RowError>)

  /** Line 1 is the header, so data rows are numbered from 2. */
  const FirstLine: nat := 2

  const RoleSeparator: char := '|'

  // ---------------------------------------------------------------------------
  // The Roles cell

  /** `[r.strip() for r in parts if r.strip()]`. */
  function StrippedParts(parts: seq<string>): (r: seq<string>)
    ensures |r| <= |parts|
    ensures forall i :: 0 <= i < |r| ==> r[i] != "" && Strip(r[i]) == r[i]
    decreases |parts|
  {
    if |parts| == 0 then []
    else
      var s := Strip(parts[0]);
      StripIdempotent(parts[0]);
      (if s != "" then [s] else []) + StrippedParts(parts[1..])
  }

  /** The stripped pieces are exactly the non-empty strips of the input's
      pieces. */
  lemma {:induction false} StrippedPartsMembers(parts: seq<string>)
    ensures forall x :: x in StrippedParts(parts) <==> x != "" && exists p :: p in parts && Strip(p) == x
    decreases |parts|
  {
    if |parts| > 0 {
      StrippedPartsMembers(parts[1..]);
      var s := Strip(parts[0]);
      assert StrippedParts(parts) == (if s != "" then [s] else []) + StrippedParts(parts[1..]);
      forall x | x != "" && exists p :: p in parts && Strip(p) == x
        ensures x in StrippedParts(parts)
      {
        var p :| p in parts && Strip(p) == x;
        if p != parts[0] {
          assert p in parts[1..];
        }
      }
    }
  }

  /** The stripped pieces keep their input order: the pieces of a
      concatenation are the pieces of its first part, then of its second. */
  lemma {:induction false} StrippedPartsAppend(a: seq<string>, b: seq<string>)
    ensures StrippedParts(a + b) == StrippedParts(a) + StrippedParts(b)
    decreases |a|
  {
    if |a| == 0 {
      assert a + b == b;
    } else {
      assert (a + b)[0] == a[0];
      assert (a + b)[1..] == a[1..] + b;
      StrippedPartsAppend(a[1..], b);
    }
  }

  /** The Roles cell, already stripped: `None` when it is empty, otherwise
      its `|`-separated pieces, stripped, empty pieces dropped. */
  function ParseRoles(raw: string): (r: Option<seq<string>>)
    ensures r.None? <==> raw == ""
    ensures r.Some? ==> forall x :: x in r.value <==>
      x != "" && exists p :: p in Split(raw, RoleSeparator) && Strip(p) == x
    ensures r.Some? ==> forall i :: 0 <= i < |r.value| ==> r.value[i] != "" && Strip(r.value[i]) == r.value[i]
  {
    if raw == "" then None
    else
      StrippedPartsMembers(Split(raw, RoleSeparator));
      Some(StrippedParts(Split(raw, RoleSeparator)))
  }

  /** Reading `|`-joined pieces gives their stripped non-empty forms, in the
      pieces' order. */
  lemma ParseJoinedRoles(pieces: seq<string>)
    requires forall i :: 0 <= i < |pieces| ==> RoleSeparator !in pieces[i]
    requires Join(pieces, RoleSeparator) != ""
    ensures ParseRoles(Join(pieces, RoleSeparator)) == Some(StrippedParts(pieces))
  {
    SplitJoin(pieces, RoleSeparator);
  }

  /** A role name the export writes and the import reads back unchanged. */
  predicate CleanRole(s: string)
  {
    s != "" && Strip(s) == s && RoleSeparator !in s
  }

  lemma TrimmedStart(s: string)
    requires s != "" && !IsSpace(s[0])
    ensures TrimLeft(s) == s
  {
  }

  lemma TrimmedEnd(s: string)
    requires s != "" && !IsSpace(s[|s| - 1])
    ensures TrimRight(s) == s
  {
  }

  /** A joined list starts with its first piece's first character and ends
      with its last piece's last character. */
  lemma {:induction false} JoinEnds(parts: seq<string>, sep: char)
    requires |parts| >= 1 && forall i :: 0 <= i < |parts| ==> parts[i] != ""
    ensures var j := Join(parts, sep);
      |j| > 0 && j[0] == parts[0][0] && j[|j| - 1] == parts[|parts| - 1][|parts[|parts| - 1]| - 1]
    decreases |parts|
  {
    if |parts| > 1 {
      JoinEnds(parts[1..], sep);
      assert parts[1..][|parts| - 2] == parts[|parts| - 1];
    }
  }

  /** The export writes a spec's roles as `"|".join(roles)`; importing that
      cell gives back the same roles, provided each is a clean role name. */
  lemma RolesRoundTrip(roles: seq<string>)
    requires |roles| >= 1
    requires forall i :: 0 <= i < |roles| ==> CleanRole(roles[i])
    ensures ParseRoles(Strip(Join(roles, RoleSeparator))) == Some(roles)
  {
    var j := Join(roles, RoleSeparator);
    assert Strip(j) == j by {
      assert forall i :: 0 <= i < |roles| ==> roles[i] != "";
      assert CleanRole(roles[0]) && CleanRole(roles[|roles| - 1]);
      JoinIsStripped(roles);
    }
    assert j != "" by { JoinEnds(roles, RoleSeparator); }
    assert Split(j, RoleSeparator) == roles by { SplitJoin(roles, RoleSeparator); }
    assert StrippedParts(roles) == roles by { StrippedClean(roles); }
  }

  /** A join of non-empty pieces whose first and last pieces are stripped
      has nothing for `strip()` to remove. */
  lemma JoinIsStripped(roles: seq<string>)
    requires |roles| >= 1 && forall i :: 0 <= i < |roles| ==> roles[i] != ""
    requires Strip(roles[0]) == roles[0] && Strip(roles[|roles| - 1]) == roles[|roles| - 1]
    ensures Strip(Join(roles, RoleSeparator)) == Join(roles, RoleSeparator)
  {
    var j := Join(roles, RoleSeparator);
    JoinEnds(roles, RoleSeparator);
    StripKeepsEnds(roles[0], roles[|roles| - 1], j);
  }

  /** A string that starts like one stripped string and ends like another
      is stripped itself. */
  lemma StripKeepsEnds(first: string, last: string, s: string)
    requires first != "" && Strip(first) == first
    requires last != "" && Strip(last) == last
    requires s != "" && s[0] == first[0] && s[|s| - 1] == last[|last| - 1]
    ensures Strip(s) == s
  {
    assert TrimLeft(s) == s by { TrimmedStart(s); }
    assert TrimRight(s) == s by { TrimmedEnd(s); }
  }

  lemma {:induction false} StrippedClean(parts: seq<string>)
    requires forall i :: 0 <= i < |parts| ==> CleanRole(parts[i])
    ensures StrippedParts(parts) == parts
    decreases |parts|
  {
    if |parts| > 0 {
      assert CleanRole(parts[0]);
      StrippedClean(parts[1..]);
      assert parts == [parts[0]] + parts[1..];
    }
  }

  // ---------------------------------------------------------------------------
  // One row

  /** The roles a row's Roles cell lists, none when the cell is empty. */
  function RowRoles(row: CsvRow): seq<string>
  {
    var parsed := ParseRoles(Strip(row.roles));
    if parsed.Some? then parsed.value else []
  }

  /** Class and Spec present, the pair in the built-in table, and the Tier
      empty or allowed: every check before the roles. */
  predicate Admissible(row: CsvRow)
  {
    && Strip(row.klass) != "" && Strip(row.spec) != ""
    && BaseEntryFor(SpecKey(Strip(row.klass), Strip(row.spec))).Some?
    && (Strip(row.tier) == "" || Strip(row.tier) in AllowedTiers)
  }

  /** The checks, in order: Class and Spec present, the pair in the built-in
      table, the Tier empty or allowed, every parsed role selectable. A valid
      row sets the Tier when the cell is non-empty and the roles when at
      least one remains after parsing. */
  function CheckRow(valid: seq<string>, row: CsvRow): (r: Checked)
    ensures r == Reject(MissingClassSpec) <==> Strip(row.klass) == "" || Strip(row.spec) == ""
    ensures r.Reject? && r.problem.UnknownClassSpec? <==>
      Strip(row.klass) != "" && Strip(row.spec) != "" && BaseEntryFor(SpecKey(Strip(row.klass), Strip(row.spec))).None?
    ensures r.Reject? && r.problem.InvalidTier? <==>
      && Strip(row.klass) != "" && Strip(row.spec) != ""
      && BaseEntryFor(SpecKey(Strip(row.klass), Strip(row.spec))).Some?
      && Strip(row.tier) != "" && Strip(row.tier) !in AllowedTiers
    ensures r.Reject? && r.problem.InvalidRoles? <==>
      Admissible(row) && exists x :: x in RowRoles(row) && x !in valid
    ensures r.Accept? <==> Admissible(row) && forall x :: x in RowRoles(row) ==> x in valid
    ensures r.Accept? ==>
      && r.change.key == SpecKey(Strip(row.klass), Strip(row.spec))
      && (r.change.tier.Some? <==> Strip(row.tier) != "")
      && (r.change.tier.Some? ==> r.change.tier.value == Strip(row.tier))
      && r.change.roles == (if |RowRoles(row)| > 0 then Some(RowRoles(row)) else None)
    ensures r.Reject? && r.problem.InvalidTier? ==> r.problem.tier == Strip(row.tier)
    ensures r.Reject? && r.problem.InvalidRoles? ==>
      |r.problem.bad| > 0 && forall x :: x in r.problem.bad <==> x in RowRoles(row) && x !in valid
  {
    var klass := Strip(row.klass);
    var spec := Strip(row.spec);
    var tier := Strip(row.tier);
    var roles := RowRoles(row);
    if klass == "" || spec == "" then Reject(MissingClassSpec)
    else if BaseEntryFor(SpecKey(klass, spec)).None? then Reject(UnknownClassSpec(klass, spec))
    else if tier != "" && tier !in AllowedTiers then Reject(InvalidTier(tier))
    else
      var bad := Filter((x: string) => x !in valid, roles);
      FilterNonEmpty((x: string) => x !in valid, roles);
      if |bad| > 0 then Reject(InvalidRoles(bad))
      else
        Accept(Change(SpecKey(klass, spec),
                      if tier != "" then Some(tier) else None,
                      if |roles| > 0 then Some(roles) else None))
  }

  /** `a` if set, else `b`. */
  function Later<V>(a: Option<V>, b: Option<V>): Option<V>
  {
    if a.Some? then a else b
  }

  /** `setdefault` the entry, then set each requested field that differs. */
  function Merge(o: Overrides, c: Change): (m: Merged)
    ensures c.key in m.overrides
    ensures m.overrides.Keys == o.Keys + {c.key}
    ensures forall k :: k in o && k != c.key ==> m.overrides[k] == o[k]
    ensures !m.changed <==>
      && (c.tier.Some? ==> c.key in o && o[c.key].tier == c.tier)
      && (c.roles.Some? ==> c.key in o && o[c.key].roles == c.roles)
  {
    var entry := if c.key in o then o[c.key] else EmptyOverride;
    var tierChanged := c.tier.Some? && entry.tier != c.tier;
    var rolesChanged := c.roles.Some? && entry.roles != c.roles;
    var entry' := entry.(tier := if tierChanged then c.tier else entry.tier,
                         roles := if rolesChanged then c.roles else entry.roles);
    Merged(o[c.key := entry'], tierChanged || rolesChanged)
  }

  // ---------------------------------------------------------------------------
  // All rows

  /** The loop over the data rows, numbered from `line`, each judged by
      `check`. */
  function ApplyRows(check: CsvRow -> Checked, o: Overrides, rows: seq<CsvRow>, line: nat): (r: Report)
    ensures r.updated + r.skipped == |rows|
    ensures |r.errors| <= r.skipped
    decreases |rows|
  {
    if |rows| == 0 then Report(o, 0, 0, [])
    else
      match check(rows[0])
      case Reject(p) =>
        var rest := ApplyRows(check, o, rows[1..], line + 1);
        rest.(skipped := rest.skipped + 1, errors := [RowError(line, p)] + rest.errors)
      case Accept(c) =>
        var m := Merge(o, c);
        var rest := ApplyRows(check, m.overrides, rows[1..], line + 1);
        if m.changed then rest.(updated := rest.updated + 1) else rest.(skipped := rest.skipped + 1)
  }

  /** `_apply_meta_csv_string`: the selectable roles are fixed before the loop. */
  function ApplyMetaCsv(t: Tables, rows: seq<CsvRow>): (r: Report)
    ensures r.updated + r.skipped == |rows|
  {
    ApplyRows((row: CsvRow) => CheckRow(AllRolesForSelect(t.customRoles), row), t.overrides, rows, FirstLine)
  }

  /** The changes the valid rows ask for, in row order. */
  function Accepted(check: CsvRow -> Checked, rows: seq<CsvRow>): (cs: seq<Change>)
    ensures |cs| <= |rows|
    decreases |rows|
  {
    if |rows| == 0 then []
    else
      var c := check(rows[0]);
      (if c.Accept? then [c.change] else []) + Accepted(check, rows[1..])
  }

  /** Merging a list of changes in order. */
  function ApplyChanges(o: Overrides, cs: seq<Change>): Overrides
    decreases |cs|
  {
    if |cs| == 0 then o else ApplyChanges(Merge(o, cs[0]).overrides, cs[1..])
  }

  /** Rejected rows leave no trace in the table: it is the valid rows'
      changes merged in order, and one error is reported per rejected row. */
  lemma {:induction false} RejectedRowsChangeNothing(check: CsvRow -> Checked, o: Overrides, rows: seq<CsvRow>, line: nat)
    ensures ApplyRows(check, o, rows, line).overrides == ApplyChanges(o, Accepted(check, rows))
    ensures |ApplyRows(check, o, rows, line).errors| + |Accepted(check, rows)| == |rows|
    decreases |rows|
  {
    if |rows| > 0 {
      var c := check(rows[0]);
      if c.Accept? {
        RejectedRowsChangeNothing(check, Merge(o, c.change).overrides, rows[1..], line + 1);
        assert Accepted(check, rows) == [c.change] + Accepted(check, rows[1..]);
      } else {
        RejectedRowsChangeNothing(check, o, rows[1..], line + 1);
        assert ApplyRows(check, o, rows, line).overrides == ApplyRows(check, o, rows[1..], line + 1).overrides;
        assert Accepted(check, rows) == Accepted(check, rows[1..]);
      }
    }
  }

  /** The rejected rows' errors, in row order; the table plays no part. */
  function Rejections(check: CsvRow -> Checked, rows: seq<CsvRow>, line: nat): seq<RowError>
    decreases |rows|
  {
    if |rows| == 0 then []
    else
      var c := check(rows[0]);
      (if c.Reject? then [RowError(line, c.problem)] else []) + Rejections(check, rows[1..], line + 1)
  }

  lemma {:induction false} ErrorsAreRejections(check: CsvRow -> Checked, o: Overrides, rows: seq<CsvRow>, line: nat)
    ensures ApplyRows(check, o, rows, line).errors == Rejections(check, rows, line)
    decreases |rows|
  {
    if |rows| > 0 {
      var c := check(rows[0]);
      var next := if c.Accept? then Merge(o, c.change).overrides else o;
      ErrorsAreRejections(check, next, rows[1..], line + 1);
    }
  }

  /** Every error names a row of the input by its line number and the
      problem that row has, and errors come in line order. */
  lemma {:induction false} RejectionsNameRows(check: CsvRow -> Checked, rows: seq<CsvRow>, line: nat)
    ensures var errs := Rejections(check, rows, line);
      && (forall e :: e in errs ==>
            line <= e.line < line + |rows| && check(rows[e.line - line]) == Reject(e.problem))
      && (forall i, j | 0 <= i < j < |errs| :: errs[i].line < errs[j].line)
    decreases |rows|
  {
    if |rows| > 0 {
      var c := check(rows[0]);
      RejectionsNameRows(check, rows[1..], line + 1);
      var rest := Rejections(check, rows[1..], line + 1);
      forall e | e in rest
        ensures check(rows[e.line - line]) == Reject(e.problem)
      {
        assert rows[e.line - line] == rows[1..][e.line - (line + 1)];
      }
    }
  }

  /** Every rejected row is reported, with its line number and problem. */
  lemma {:induction false} RejectionsCoverRows(check: CsvRow -> Checked, rows: seq<CsvRow>, line: nat)
    ensures forall i | 0 <= i < |rows| :: check(rows[i]).Reject? ==>
      RowError(line + i, check(rows[i]).problem) in Rejections(check, rows, line)
    decreases |rows|
  {
    if |rows| > 0 {
      RejectionsCoverRows(check, rows[1..], line + 1);
      var rest := Rejections(check, rows[1..], line + 1);
      forall i | 1 <= i < |rows| && check(rows[i]).Reject?
        ensures RowError(line + i, check(rows[i]).problem) in Rejections(check, rows, line)
      {
        assert rows[i] == rows[1..][i - 1];
        assert RowError(line + 1 + (i - 1), check(rows[1..][i - 1]).problem) in rest;
      }
    }
  }

  /** The reported errors are exactly one per rejected row, naming its line
      and problem, in line order. */
  lemma ErrorsSpec(check: CsvRow -> Checked, o: Overrides, rows: seq<CsvRow>, line: nat)
    ensures var errs := ApplyRows(check, o, rows, line).errors;
      && (forall e :: e in errs ==>
            line <= e.line < line + |rows| && check(rows[e.line - line]) == Reject(e.problem))
      && (forall i | 0 <= i < |rows| :: check(rows[i]).Reject? ==> RowError(line + i, check(rows[i]).problem) in errs)
      && (forall i, j | 0 <= i < j < |errs| :: errs[i].line < errs[j].line)
  {
    ErrorsAreRejections(check, o, rows, line);
    RejectionsNameRows(check, rows, line);
    RejectionsCoverRows(check, rows, line);
  }

  // ---------------------------------------------------------------------------
  // Re-applying the same rows

  /** The last value a change list sets for one field of `k`, if any. */
  function LastTier(cs: seq<Change>, k: SpecKey): Option<string>
    decreases |cs|
  {
    if |cs| == 0 then None
    else Later(LastTier(cs[1..], k), if cs[0].key == k then cs[0].tier else None)
  }

  function LastRoles(cs: seq<Change>, k: SpecKey): Option<seq<string>>
    decreases |cs|
  {
    if |cs| == 0 then None
    else Later(LastRoles(cs[1..], k), if cs[0].key == k then cs[0].roles else None)
  }

  function NamedKeys(cs: seq<Change>): set<SpecKey>
  {
    set c | c in cs :: c.key
  }

  /** Reference definition: each field of an entry ends up with the last
      value any change sets for it, or keeps its old value. */
  function FinalEntry(o: Overrides, cs: seq<Change>, k: SpecKey): OverrideEntry
  {
    var e := if k in o then o[k] else EmptyOverride;
    OverrideEntry(Later(LastRoles(cs, k), e.roles), Later(LastTier(cs, k), e.tier))
  }

  /** Merging in order is last-writer-wins, field by field: the table holds
      the old keys plus every key a change names, with `FinalEntry` values. */
  lemma {:induction false} ApplyChangesIsLastWriter(o: Overrides, cs: seq<Change>)
    ensures ApplyChanges(o, cs).Keys == o.Keys + NamedKeys(cs)
    ensures forall k :: k in ApplyChanges(o, cs) ==> ApplyChanges(o, cs)[k] == FinalEntry(o, cs, k)
    decreases |cs|
  {
    if |cs| > 0 {
      var c := cs[0];
      var rest := cs[1..];
      var o1 := Merge(o, c).overrides;
      ApplyChangesIsLastWriter(o1, rest);
      assert NamedKeys(cs) == {c.key} + NamedKeys(rest) by {
        assert cs == [c] + rest;
      }
      forall k | k in ApplyChanges(o, cs)
        ensures ApplyChanges(o, cs)[k] == FinalEntry(o, cs, k)
      {
        FinalEntryStep(o, cs, k);
      }
    }
  }

  /** Merging the first change and then the rest ends where all of them do. */
  lemma FinalEntryStep(o: Overrides, cs: seq<Change>, k: SpecKey)
    requires |cs| > 0
    ensures FinalEntry(Merge(o, cs[0]).overrides, cs[1..], k) == FinalEntry(o, cs, k)
  {
    if k != cs[0].key {
      assert LastTier(cs, k) == LastTier(cs[1..], k);
      assert LastRoles(cs, k) == LastRoles(cs[1..], k);
    }
  }

  /** Merging the same changes again leaves the table as it is. */
  lemma ApplyChangesIdempotent(o: Overrides, cs: seq<Change>)
    ensures ApplyChanges(ApplyChanges(o, cs), cs) == ApplyChanges(o, cs)
  {
    var a := ApplyChanges(o, cs);
    ApplyChangesIsLastWriter(o, cs);
    ApplyChangesIsLastWriter(a, cs);
    var b := ApplyChanges(a, cs);
    assert b.Keys == a.Keys;
    forall k | k in a
      ensures b[k] == a[k]
    {
    }
  }

  /** Importing the same rows a second time leaves the table as the first
      import left it. */
  lemma ImportIdempotent(check: CsvRow -> Checked, o: Overrides, rows: seq<CsvRow>, line: nat)
    ensures var first := ApplyRows(check, o, rows, line);
      ApplyRows(check, first.overrides, rows, line).overrides == first.overrides
  {
    var first := ApplyRows(check, o, rows, line);
    RejectedRowsChangeNothing(check, o, rows, line);
    RejectedRowsChangeNothing(check, first.overrides, rows, line);
    ApplyChangesIdempotent(o, Accepted(check, rows));
  }

  /** No two changes name the same pair. */
  ghost predicate DistinctKeys(cs: seq<Change>)
  {
    forall i, j | 0 <= i < j < |cs| :: cs[i].key != cs[j].key
  }

  /** The table already holds everything `c` asks for. */
  ghost predicate Settled(o: Overrides, c: Change)
  {
    && c.key in o
    && (c.tier.Some? ==> o[c.key].tier == c.tier)
    && (c.roles.Some? ==> o[c.key].roles == c.roles)
  }

  /** A change whose key no other change names is the last writer of it. */
  lemma {:induction false} LastOfUnique(cs: seq<Change>, i: nat)
    requires DistinctKeys(cs) && i < |cs|
    ensures LastTier(cs, cs[i].key) == cs[i].tier
    ensures LastRoles(cs, cs[i].key) == cs[i].roles
    decreases |cs|
  {
    var k := cs[i].key;
    if i == 0 {
      NotNamed(cs[1..], k);
    } else {
      assert cs[1..][i - 1] == cs[i];
      LastOfUnique(cs[1..], i - 1);
    }
  }

  lemma {:induction false} NotNamed(cs: seq<Change>, k: SpecKey)
    requires forall j | 0 <= j < |cs| :: cs[j].key != k
    ensures LastTier(cs, k) == None && LastRoles(cs, k) == None
    decreases |cs|
  {
    if |cs| > 0 {
      NotNamed(cs[1..], k);
    }
  }

  /** A table that already holds every valid row's change stays as it is,
      and every row is skipped. */
  lemma {:induction false} SettledRowsSkip(check: CsvRow -> Checked, o: Overrides, rows: seq<CsvRow>, line: nat)
    requires forall c | c in Accepted(check, rows) :: Settled(o, c)
    ensures ApplyRows(check, o, rows, line).overrides == o
    ensures ApplyRows(check, o, rows, line).updated == 0
    decreases |rows|
  {
    if |rows| > 0 {
      var c := check(rows[0]);
      assert forall x | x in Accepted(check, rows[1..]) :: x in Accepted(check, rows);
      if c.Accept? {
        assert c.change in Accepted(check, rows);
        var m := Merge(o, c.change);
        assert m.overrides == o;
      }
      SettledRowsSkip(check, o, rows[1..], line + 1);
    }
  }

  /** When no two valid rows name the same pair, a second import of the same
      rows updates nothing. */
  lemma SecondImportUpdatesNothing(check: CsvRow -> Checked, o: Overrides, rows: seq<CsvRow>, line: nat)
    requires DistinctKeys(Accepted(check, rows))
    ensures ApplyRows(check, ApplyRows(check, o, rows, line).overrides, rows, line).updated == 0
  {
    var cs := Accepted(check, rows);
    var a := ApplyRows(check, o, rows, line).overrides;
    RejectedRowsChangeNothing(check, o, rows, line);
    ApplyChangesIsLastWriter(o, cs);
    forall c | c in cs
      ensures Settled(a, c)
    {
      var i :| 0 <= i < |cs| && cs[i] == c;
      LastOfUnique(cs, i);
      assert c.key in NamedKeys(cs);
    }
    SettledRowsSkip(check, a, rows, line);
  }

  /** Two valid rows naming the same pair with different tiers are both
      counted as updated again on a second import: each still overwrites the
      other. */
  lemma DuplicateRowsUpdateAgain(check: CsvRow -> Checked, o: Overrides, r1: CsvRow, r2: CsvRow, line: nat)
    requires check(r1).Accept? && check(r2).Accept?
    requires check(r1).change.key == check(r2).change.key
    requires check(r1).change.tier.Some? && check(r2).change.tier.Some?
    requires check(r1).change.tier != check(r2).change.tier
    ensures ApplyRows(check, ApplyRows(check, o, [r1, r2], line).overrides, [r1, r2], line).updated == 2
  {
    var rows := [r1, r2];
    var c1 := check(r1).change;
    var c2 := check(r2).change;
    var m1 := Merge(o, c1).overrides;
    var a := Merge(m1, c2).overrides;
    assert ApplyRows(check, m1, [r2], line + 1).overrides == a by {
      assert [r2][1..] == [];
    }
    assert rows[1..] == [r2];
    assert ApplyRows(check, o, rows, line).overrides == a;
    assert a[c2.key].tier == c2.tier;
    var b := Merge(a, c1);
    assert b.changed;
    assert b.overrides[c1.key].tier == c1.tier;
    var b2 := Merge(b.overrides, c2);
    assert b2.changed;
    assert ApplyRows(check, b.overrides, [r2], line + 1).updated == 1 by {
      assert [r2][1..] == [];
    }
  }

  /** `_apply_meta_csv_string` run twice on the same rows: the table is as
      the first run left it, and when no two valid rows name the same pair
      the second run updates nothing. */
  lemma ApplyMetaCsvTwice(t: Tables, rows: seq<CsvRow>)
    ensures var first := ApplyMetaCsv(t, rows);
      ApplyMetaCsv(t.(overrides := first.overrides), rows).overrides == first.overrides
    ensures var check := (row: CsvRow) => CheckRow(AllRolesForSelect(t.customRoles), row);
      DistinctKeys(Accepted(check, rows)) ==>
        ApplyMetaCsv(t.(overrides := ApplyMetaCsv(t, rows).overrides), rows).updated == 0
  {
    var check := (row: CsvRow) => CheckRow(AllRolesForSelect(t.customRoles), row);
    ImportIdempotent(check, t.overrides, rows, FirstLine);
    if DistinctKeys(Accepted(check, rows)) {
      SecondImportUpdatesNothing(check, t.overrides, rows, FirstLine);
    }
  }
}
