/** bin/parse.py and bin/scrape.py: the group filter both scripts build from
    their `-g` and `-f` options, how parse.py picks and runs its parser
    modules, and how scrape.py hands its filter to the scraper. */
module Cli {
  import opened Wrappers
  import opened Text
  import opened Lists

  // ---------------------------------------------------------------------
  // `load_groups`

  /** The names a list of pieces gives under `clean`: each piece cleaned,
      the empty results dropped. */
  function Cleaned(pieces: seq<string>, clean: string -> string): set<string>
    decreases |pieces|
  {
    if pieces == [] then {}
    else
      var n := |pieces| - 1;
      Cleaned(pieces[..n], clean) + (if clean(pieces[n]) != [] then {clean(pieces[n])} else {})
  }

  /** The names a list of pieces gives: each piece stripped, the blank ones
      dropped. */
  function Named(pieces: seq<string>): set<string> {
    Cleaned(pieces, Strip)
  }

  /** The groups the `-g` option lists (lines 22-23): its value split at
      `,`; none when the option is absent or empty. */
  function OptionGroups(arg: Option<string>): set<string> {
    if arg.Some? && arg.value != [] then Named(Split(arg.value, ',')) else {}
  }

  /** `load_groups`, with `lines` the lines of the `-f` file when that option
      is given. */
  function Groups(arg: Option<string>, lines: Option<seq<string>>): set<string> {
    OptionGroups(arg) + (if lines.Some? then Named(lines.value) else {})
  }

  lemma {:induction false} CleanedMembers(pieces: seq<string>, clean: string -> string)
    ensures forall g :: g in Cleaned(pieces, clean) <==>
      exists i | 0 <= i < |pieces| :: clean(pieces[i]) != [] && g == clean(pieces[i])
    decreases |pieces|
  {
    if pieces != [] {
      var n := |pieces| - 1;
      CleanedMembers(pieces[..n], clean);
      forall g | g in Cleaned(pieces, clean)
        ensures exists i | 0 <= i < |pieces| :: clean(pieces[i]) != [] && g == clean(pieces[i])
      {
        if g in Cleaned(pieces[..n], clean) {
          var i :| 0 <= i < n && clean(pieces[..n][i]) != [] && g == clean(pieces[..n][i]);
          assert pieces[..n][i] == pieces[i];
        }
      }
      forall g, i | 0 <= i < |pieces| && clean(pieces[i]) != [] && g == clean(pieces[i])
        ensures g in Cleaned(pieces, clean)
      {
        if i < n {
          assert pieces[..n][i] == pieces[i];
        }
      }
    }
  }

  /** The names are exactly the stripped forms of the non-blank pieces. */
  lemma NamedMembers(pieces: seq<string>)
    ensures forall g :: g in Named(pieces) <==>
      exists i | 0 <= i < |pieces| :: Strip(pieces[i]) != [] && g == Strip(pieces[i])
  {
    CleanedMembers(pieces, Strip);
  }

  lemma {:induction false} CleanedAppend(a: seq<string>, b: seq<string>, clean: string -> string)
    ensures Cleaned(a + b, clean) == Cleaned(a, clean) + Cleaned(b, clean)
    decreases |b|
  {
    if b == [] {
      assert a + b == a;
    } else {
      var m := |b| - 1;
      assert (a + b)[..|a + b| - 1] == a + b[..m];
      assert (a + b)[|a + b| - 1] == b[m];
      CleanedAppend(a, b[..m], clean);
    }
  }

  /** The names of two blocks of pieces are the names of each. */
  lemma NamedAppend(a: seq<string>, b: seq<string>)
    ensures Named(a + b) == Named(a) + Named(b)
  {
    CleanedAppend(a, b, Strip);
  }

  /** One more line adds its stripped form unless that is blank. */
  lemma NamedNext(lines: seq<string>, i: nat)
    requires i < |lines|
    ensures Named(lines[..i + 1]) == Named(lines[..i]) + (if Strip(lines[i]) != [] then {Strip(lines[i])} else {})
  {
    assert lines[..i + 1][..i] == lines[..i];
  }

  /** The loop over the lines of the `-f` file: each stripped, non-blank
      line joins the groups. */
  method AddLines(groups: set<string>, lines: seq<string>) returns (groups': set<string>)
    ensures groups' == groups + Named(lines)
  {
    groups' := groups;
    var i := 0;
    while i < |lines|
      invariant 0 <= i <= |lines|
      invariant groups' == groups + Named(lines[..i])
    {
      NamedNext(lines, i);
      var line := Strip(lines[i]);
      if line != [] {
        groups' := groups' + {line};
      }
      i := i + 1;
    }
    assert lines[..i] == lines;
  }

  /** bin/parse.py `load_groups`, with `fileText` the text of the `-f` file
      when that option is given. */
  method ParseLoadGroups(arg: Option<string>, fileText: Option<string>) returns (groups: set<string>)
    ensures groups == Groups(arg, if fileText.Some? then Some(FileLines(fileText.value)) else None)
  {
    groups := {};
    if arg.Some? && arg.value != [] {
      groups := groups + Named(Split(arg.value, ','));
    }
    if fileText.Some? {
      groups := AddLines(groups, FileLines(fileText.value));
    }
  }

  /** bin/scrape.py `load_groups`: the same filter, with the file's lines cut
      by `splitlines()`. */
  method ScrapeLoadGroups(arg: Option<string>, fileText: Option<string>) returns (groups: set<string>)
    ensures groups == Groups(arg, if fileText.Some? then Some(SplitLines(fileText.value)) else None)
  {
    groups := {};
    if arg.Some? && arg.value != [] {
      groups := groups + Named(Split(arg.value, ','));
    }
    if fileText.Some? {
      groups := AddLines(groups, SplitLines(fileText.value));
    }
  }

  /** Every name is non-empty and without whitespace at either end. */
  lemma NamedTrimmed(pieces: seq<string>)
    ensures forall g | g in Named(pieces) :: g != [] && Strip(g) == g
  {
    NamedMembers(pieces);
    forall g | g in Named(pieces)
      ensures g != [] && Strip(g) == g
    {
      var i :| 0 <= i < |pieces| && Strip(pieces[i]) != [] && g == Strip(pieces[i]);
      StripIdempotent(pieces[i]);
    }
  }

  /** Every group is a non-empty name without whitespace at either end. */
  lemma GroupsTrimmed(arg: Option<string>, lines: Option<seq<string>>)
    ensures forall g | g in Groups(arg, lines) :: g != [] && Strip(g) == g
  {
    if arg.Some? {
      NamedTrimmed(Split(arg.value, ','));
    }
    if lines.Some? {
      NamedTrimmed(lines.value);
    }
  }

  /** A group named with `-g` never contains `,`. */
  lemma OptionGroupsNoComma(arg: Option<string>)
    ensures forall g | g in OptionGroups(arg) :: ',' !in g
  {
    if arg.Some? && arg.value != [] {
      var pieces := Split(arg.value, ',');
      NamedMembers(pieces);
      forall g | g in OptionGroups(arg)
        ensures ',' !in g
      {
        var i :| 0 <= i < |pieces| && Strip(pieces[i]) != [] && g == Strip(pieces[i]);
        StripKeepsOut(pieces[i], ',');
      }
    }
  }

  lemma {:induction false} CleanedEmpty(pieces: seq<string>, clean: string -> string)
    ensures Cleaned(pieces, clean) == {} <==> forall p | p in pieces :: clean(p) == []
    decreases |pieces|
  {
    if pieces != [] {
      var n := |pieces| - 1;
      CleanedEmpty(pieces[..n], clean);
      assert pieces == pieces[..n] + [pieces[n]];
    }
  }

  /** The `-g` option names no group exactly when it is absent or all its
      pieces are blank. */
  lemma OptionGroupsEmpty(arg: Option<string>)
    ensures OptionGroups(arg) == {} <==> (arg.Some? ==> forall g | g in Split(arg.value, ',') :: Strip(g) == [])
  {
    if arg.Some? {
      CleanedEmpty(Split(arg.value, ','), Strip);
      if arg.value == [] {
        assert Split(arg.value, ',') == [[]];
        assert Strip([]) == [];
      }
    }
  }

  /** The filter is empty exactly when every `-g` piece and every file line
      is blank. */
  lemma GroupsEmpty(arg: Option<string>, lines: seq<string>)
    ensures Groups(arg, Some(lines)) == {} <==>
      (arg.Some? ==> forall g | g in Split(arg.value, ',') :: Strip(g) == [])
      && forall l | l in lines :: Strip(l) == []
  {
    CleanedEmpty(lines, Strip);
    OptionGroupsEmpty(arg);
  }

  /** Repeating names, on the command line or in the file, adds nothing: a
      block of lines given twice gives the same filter. */
  lemma NamedRepeat(a: seq<string>, b: seq<string>)
    ensures Named(a + b + a) == Named(a + b)
  {
    NamedAppend(a + b, a);
    NamedAppend(a, b);
  }

  // ---------------------------------------------------------------------
  // bin/scrape.py `main`

  /** Line 29: an empty set of groups means "every group". */
  function ScrapeFilter(groups: set<string>): Option<set<string>> {
    if groups == {} then None else Some(groups)
  }

  /** Whether the scraper works on group `name` under `filter`, `None`
      standing for all groups. */
  predicate Selected(filter: Option<set<string>>, name: string) {
    filter.None? || name in filter.value
  }

  /** The filter selects every group when none was named, and otherwise
      exactly the named ones. */
  lemma ScrapeFilterSelects(groups: set<string>, name: string)
    ensures Selected(ScrapeFilter(groups), name) <==> groups == {} || name in groups
    ensures ScrapeFilter(groups).Some? ==> ScrapeFilter(groups).value == groups
  {
  }

  /** One call of `ransomlook.scraper(db, groups_filter=filter)`. */
  datatype ScrapeRun = ScrapeRun(db: int, filter: Option<set<string>>)

  /** bin/scrape.py `main`: the scraper runs on database 0, then on
      database 3, with the same filter. */
  method ScrapeMain(arg: Option<string>, fileText: Option<string>) returns (runs: seq<ScrapeRun>)
    ensures var groups := Groups(arg, if fileText.Some? then Some(SplitLines(fileText.value)) else None);
      && |runs| == 2 && runs[0].db == 0 && runs[1].db == 3
      && runs[0].filter == runs[1].filter
      && forall name :: Selected(runs[0].filter, name) <==> groups == {} || name in groups
  {
    var groups := ScrapeLoadGroups(arg, fileText);
    var groupsFilter := if groups != {} then Some(groups) else None;
    runs := [ScrapeRun(0, groupsFilter), ScrapeRun(3, groupsFilter)];
  }

  // ---------------------------------------------------------------------
  // bin/parse.py: choosing the parsers

  /** A path the glob at line 41 returns, with what `isfile` says of it. */
  datatype Found = Found(path: string, isFile: bool)

  /** Where the base name of `p` starts: just after the last `/`. */
  function BaseStart(p: string): (k: nat)
    ensures k <= |p| && (k == 0 || p[k - 1] == '/')
    ensures forall j | k <= j < |p| :: p[j] != '/'
  {
    if p == [] || p[|p| - 1] == '/' then |p| else BaseStart(p[..|p| - 1])
  }

  /** `os.path.basename(p)`: what follows the last `/`. */
  function Basename(p: string): string {
    p[BaseStart(p)..]
  }

  /** A suffix of `p` without `/` is a suffix of its base name. */
  lemma BasenameSuffix(p: string, t: string)
    requires EndsWith(p, t) && '/' !in t
    ensures EndsWith(Basename(p), t) && '/' !in Basename(p)
  {
    var k := BaseStart(p);
    assert k <= |p| - |t|;
    assert Basename(p)[|Basename(p)| - |t|..] == p[|p| - |t|..];
    forall j | 0 <= j < |Basename(p)|
      ensures Basename(p)[j] != '/'
    {
      assert Basename(p)[j] == p[k + j];
    }
  }

  /** `s[:-3]` */
  function DropLast3(s: string): string {
    if |s| >= 3 then s[..|s| - 3] else []
  }

  /** What line 42 makes of one path: the module name when it is a regular
      file other than `__init__.py`. */
  function ParserFile(f: Found): seq<string> {
    if f.isFile && !EndsWith(f.path, "__init__.py") then [DropLast3(Basename(f.path))] else []
  }

  /** Line 42: the module names of the parser files, in glob order. */
  function ParserNames(found: seq<Found>): seq<string> {
    Flatten(found, ParserFile)
  }

  /** What the glob `*.py` guarantees of the paths it returns. */
  predicate PyPaths(found: seq<Found>) {
    forall i | 0 <= i < |found| :: EndsWith(found[i].path, ".py")
  }

  /** A name ending in `.py` is its stem followed by `.py`. */
  lemma Stem(b: string)
    requires EndsWith(b, ".py") && '/' !in b
    ensures DropLast3(b) + ".py" == b && '/' !in DropLast3(b)
  {
    var n := b[..|b| - 3];
    assert b == n + b[|b| - 3..];
    assert forall k | 0 <= k < |n| :: n[k] == b[k];
  }

  /** The name made from a `.py` path that does not end in `__init__.py` is
      the file's base name without `.py`, and is never `__init__`. */
  lemma NameOfParserFile(path: string)
    requires EndsWith(path, ".py") && !EndsWith(path, "__init__.py")
    ensures var n := DropLast3(Basename(path));
      '/' !in n && n != "__init__" && Basename(path) == n + ".py"
  {
    BasenameSuffix(path, ".py");
    Stem(Basename(path));
  }

  /** The parser names are exactly the names of the regular files other than
      `__init__.py`. */
  lemma ParserNamesMembers(found: seq<Found>)
    ensures forall n :: n in ParserNames(found) <==>
      exists i | 0 <= i < |found| ::
        found[i].isFile && !EndsWith(found[i].path, "__init__.py") && n == DropLast3(Basename(found[i].path))
  {
    FlattenMembers(found, ParserFile);
  }

  /** Every parser name is a file's base name without `.py`, and never
      `__init__`. */
  lemma ParserNamesSound(found: seq<Found>)
    requires PyPaths(found)
    ensures forall n | n in ParserNames(found) :: '/' !in n && n != "__init__"
  {
    FlattenMembers(found, ParserFile);
    forall n | n in ParserNames(found)
      ensures '/' !in n && n != "__init__"
    {
      var i :| 0 <= i < |found| && n in ParserFile(found[i]);
      NameOfParserFile(found[i].path);
    }
  }

  /** Lines 43-44: with no filter every parser runs; otherwise those whose
      names are in the filter, in their order. */
  function Select(names: seq<string>, filter: set<string>): seq<string> {
    if filter == {} then names else InFilter(names, filter)
  }

  function InFilter(names: seq<string>, filter: set<string>): seq<string> {
    Flatten(names, name => if name in filter then [name] else [])
  }

  /** The selection keeps a name exactly when it is a parser name and the
      filter is empty or holds it; names in the filter without a parser are
      ignored. */
  lemma SelectMembers(names: seq<string>, filter: set<string>)
    ensures forall n :: n in Select(names, filter) <==> n in names && (filter == {} || n in filter)
  {
    FlattenMembers(names, name => if name in filter then [name] else []);
  }

  /** The selection keeps the parsers' order: it works block by block. */
  lemma SelectAppend(a: seq<string>, b: seq<string>, filter: set<string>)
    ensures Select(a + b, filter) == Select(a, filter) + Select(b, filter)
  {
    FlattenAppend(a, b, name => if name in filter then [name] else []);
  }

  // ---------------------------------------------------------------------
  // bin/parse.py: running the parsers

  /** What a parser module's `main()` gives: its entries, or `None` when it
      raises. */
  type Runner<E> = string -> Option<seq<E>>

  /** Whether `appender(entry, parser_name)` completes; when it raises, the
      entry is not stored. */
  type Appender<!E> = (E, string) -> bool

  /** The number of entries `appender` takes before it first raises. */
  function Accepted<E>(entries: seq<E>, name: string, accepts: Appender<E>): (k: nat)
    ensures k <= |entries|
    ensures forall i | 0 <= i < k :: accepts(entries[i], name)
    ensures k < |entries| ==> !accepts(entries[k], name)
    decreases |entries|
  {
    if entries == [] || !accepts(entries[0], name) then 0
    else 1 + Accepted(entries[1..], name, accepts)
  }

  /** The entries of `entries` tagged with the parser that produced them. */
  function Tagged<E>(entries: seq<E>, name: string): (r: seq<(E, string)>)
    ensures |r| == |entries|
    ensures forall i | 0 <= i < |r| :: r[i] == (entries[i], name)
  {
    seq(|entries|, i requires 0 <= i < |entries| => (entries[i], name))
  }

  /** What one parser adds to the log: nothing when its `main()` raises,
      otherwise its entries up to the first one `appender` raises on. */
  function Contribution<E>(name: string, run: Runner<E>, accepts: Appender<E>): seq<(E, string)> {
    match run(name)
    case None => []
    case Some(entries) => Tagged(entries[..Accepted(entries, name, accepts)], name)
  }

  /** Whether the parser ends in the `except` at line 53. */
  predicate Fails<E>(name: string, run: Runner<E>, accepts: Appender<E>) {
    run(name).None? || Accepted(run(name).value, name, accepts) < |run(name).value|
  }

  /** The loop at lines 46-56: what `appender` stores, in order. */
  function ParserLog<E>(names: seq<string>, run: Runner<E>, accepts: Appender<E>): seq<(E, string)> {
    Flatten(names, name => Contribution(name, run, accepts))
  }

  /** The loop at lines 46-56: the parsers reported as failing, in order. */
  function Failures<E>(names: seq<string>, run: Runner<E>, accepts: Appender<E>): seq<string> {
    Flatten(names, name => if Fails(name, run, accepts) then [name] else [])
  }

  /** A parser's failure stays with it: the log of a run over two blocks of
      parsers is the log of the first block followed by that of the second,
      and so are the failures. */
  lemma ParserLogAppend<E>(a: seq<string>, b: seq<string>, run: Runner<E>, accepts: Appender<E>)
    ensures ParserLog(a + b, run, accepts) == ParserLog(a, run, accepts) + ParserLog(b, run, accepts)
    ensures Failures(a + b, run, accepts) == Failures(a, run, accepts) + Failures(b, run, accepts)
  {
    FlattenAppend(a, b, name => Contribution(name, run, accepts));
    FlattenAppend(a, b, name => if Fails(name, run, accepts) then [name] else []);
  }

  /** What a parser stores is a prefix of its entries, and all of them when
      it does not fail. */
  lemma ContributionPrefix<E>(name: string, run: Runner<E>, accepts: Appender<E>)
    requires run(name).Some?
    ensures Contribution(name, run, accepts) <= Tagged(run(name).value, name)
    ensures !Fails(name, run, accepts) <==> Contribution(name, run, accepts) == Tagged(run(name).value, name)
  {
    var entries := run(name).value;
    var k := Accepted(entries, name, accepts);
    if Contribution(name, run, accepts) == Tagged(entries, name) {
      assert |Tagged(entries[..k], name)| == k;
    }
  }

  /** One parser's entries, stored one by one until `appender` raises
      (lines 50-52). */
  method AppendAll<E>(log: seq<(E, string)>, entries: seq<E>, name: string, accepts: Appender<E>)
    returns (log': seq<(E, string)>, failed: bool)
    ensures log' == log + Tagged(entries[..Accepted(entries, name, accepts)], name)
    ensures failed <==> Accepted(entries, name, accepts) < |entries|
  {
    log' := log;
    failed := false;
    var j := 0;
    while j < |entries|
      invariant 0 <= j <= |entries|
      invariant forall i | 0 <= i < j :: accepts(entries[i], name)
      invariant log' == log + Tagged(entries[..j], name)
    {
      if !accepts(entries[j], name) {
        failed := true;
        break;
      }
      assert Tagged(entries[..j + 1], name) == Tagged(entries[..j], name) + [(entries[j], name)];
      log' := log' + [(entries[j], name)];
      j := j + 1;
    }
    assert j == Accepted(entries, name, accepts);
  }

  /** bin/parse.py lines 46-56: every selected parser runs, and a parser that
      raises is reported and leaves what it stored so far. */
  method RunParsers<E>(names: seq<string>, run: Runner<E>, accepts: Appender<E>)
    returns (log: seq<(E, string)>, failed: seq<string>)
    ensures log == ParserLog(names, run, accepts)
    ensures failed == Failures(names, run, accepts)
  {
    log, failed := [], [];
    var i := 0;
    while i < |names|
      invariant 0 <= i <= |names|
      invariant log == ParserLog(names[..i], run, accepts)
      invariant failed == Failures(names[..i], run, accepts)
    {
      assert names[..i + 1][..i] == names[..i];
      var name := names[i];
      var result := run(name);
      if result.None? {
        failed := failed + [name];
      } else {
        var broke;
        log, broke := AppendAll(log, result.value, name, accepts);
        if broke {
          failed := failed + [name];
        }
      }
      i := i + 1;
    }
    assert names[..i] == names;
  }

  /** bin/parse.py `main` up to line 56: the filter, the parser names, the
      selection and the run. */
  method ParseMain<E>(arg: Option<string>, fileText: Option<string>, found: seq<Found>, run: Runner<E>,
                      accepts: Appender<E>)
    returns (log: seq<(E, string)>, failed: seq<string>)
    ensures var groups := Groups(arg, if fileText.Some? then Some(FileLines(fileText.value)) else None);
      var chosen := Select(ParserNames(found), groups);
      log == ParserLog(chosen, run, accepts) && failed == Failures(chosen, run, accepts)
  {
    var groupsFilter := ParseLoadGroups(arg, fileText);
    var all := ParserNames(found);
    var chosen := if groupsFilter != {} then InFilter(all, groupsFilter) else all;
    log, failed := RunParsers(chosen, run, accepts);
  }
}
