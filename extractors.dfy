/** Two of the leak-site parsers under ransomlook/parsers.  Each walks the
    saved pages of its group in `source/` and turns the page elements it
    selects into entries; the HTML itself is abstracted to what the
    selectors return: table cells and their strings for silentransomgroup,
    item texts and paragraph texts for datavault. */
module Extractors {
  import opened Wrappers
  import opened Text
  import opened Lists

  /** One entry as the parsers return it: `{'title', 'description', 'slug'}`. */
  datatype Entry = Entry(title: string, description: string, slug: string)

  /** A file of `source/` with what its parser reads from it. */
  datatype SourceFile<P> = SourceFile(name: string, page: P)

  /** `filename.startswith(group_name + '-')`: the page belongs to the group. */
  predicate OfGroup(filename: string, group: string) {
    StartsWith(filename, group + "-")
  }

  // ---------------------------------------------------------------------
  // Shared pieces of the two parsers

  /** BeautifulSoup's `get_text(strip=True)`: every string of the element,
      stripped, one after the other. */
  function GetText(strings: seq<string>): string {
    Flatten(strings, Strip)
  }

  /** The text `get_text(strip=True)` gives never starts or ends with
      whitespace. */
  lemma GetTextTrimmed(strings: seq<string>)
    ensures var r := GetText(strings);
      r == [] || (!IsSpace(r[0]) && !IsSpace(r[|r| - 1]))
  {
    forall i | 0 <= i < |strings|
      ensures var t := Strip(strings[i]); t == [] || (!IsSpace(t[0]) && !IsSpace(t[|t| - 1]))
    {
      StripShape(strings[i]);
    }
    FlattenEnds(strings, Strip, c => !IsSpace(c));
  }

  /** `re.IGNORECASE` on a pattern of ASCII characters: a character of the
      text matches a pattern character when both fold to the same character.
      ASCII letters fold to lower case, and so do the four non-ASCII letters
      Python's `re` pairs with ASCII ones: U+0130 and U+0131 with `i`, U+017F
      with `s` and the Kelvin sign U+212A with `k`. */
  function FoldChar(c: char): char {
    if c == '\U{130}' || c == '\U{131}' then 'i'
    else if c == '\U{17F}' then 's'
    else if c == '\U{212A}' then 'k'
    else LowerChar(c)
  }

  function Fold(s: string): (r: string)
    ensures |r| == |s|
    ensures forall i | 0 <= i < |s| :: r[i] == FoldChar(s[i])
  {
    seq(|s|, i requires 0 <= i < |s| => FoldChar(s[i]))
  }

  // ---------------------------------------------------------------------
  // ransomlook/parsers/silentransomgroup.py

  /** The module's group name, the last part of its `__name__` (line 9). */
  const SilentGroup: string := "silentransomgroup"

  /** A `td` of a block: its `.string`, absent when the cell does not hold
      exactly one string, and the strings of its next `td` sibling, absent
      when it has none. */
  datatype Cell = Cell(str: Option<string>, next: Option<seq<string>>)

  /** A `.block_1` element, as its `td` cells in document order, or one whose
      handling raises (caught at line 42). */
  datatype Block = Block(cells: seq<Cell>) | BrokenBlock

  /** A page's `.block_1` elements, or a file that cannot be opened or
      parsed (caught at line 45). */
  datatype SilentPage = SilentPage(blocks: seq<Block>) | UnreadablePage

  /** The cell's `.string` holds `key`, ignoring case: `re.compile(key, re.IGNORECASE)` searched in it. */
  predicate Labelled(c: Cell, key: string) {
    c.str.Some? && Contains(Fold(c.str.value), LowerAscii(key))
  }

  /** Lines 21-26 and 28-33: the stripped text of the `td` after the first
      cell labelled `key`, or `''` when either cell is missing. */
  function CellText(cells: seq<Cell>, key: string): string {
    var k := FirstWhere(cells, c => Labelled(c, key));
    if k < |cells| && cells[k].next.Some? then GetText(cells[k].next.value) else ""
  }

  /** Line 36: a truncated title (one holding `...`) is not kept. */
  predicate KeptTitle(title: string) {
    title != [] && !Contains(title, "...")
  }

  /** Lines 20-43: the entry one block gives. */
  function SilentBlock(b: Block, slug: string): seq<Entry> {
    match b
    case BrokenBlock => []
    case Block(cells) =>
      var title := CellText(cells, "COMPANY:");
      var description := CellText(cells, "COMPANY INFO:");
      if KeptTitle(title) then [Entry(title, description, slug)] else []
  }

  /** Lines 12-46: the entries one file gives. */
  function SilentFile(f: SourceFile<SilentPage>): seq<Entry> {
    if OfGroup(f.name, SilentGroup) && f.page.SilentPage? then
      Flatten(f.page.blocks, b => SilentBlock(b, f.name))
    else []
  }

  /** What `main` returns for the files of `source/`, in listing order. */
  function SilentEntries(files: seq<SourceFile<SilentPage>>): seq<Entry> {
    Flatten(files, SilentFile)
  }

  /** Lines 19-43: the blocks of one page, each adding its entry to
      `list`. */
  method SilentBlocks(list: seq<Entry>, name: string, blocks: seq<Block>) returns (list': seq<Entry>)
    ensures list' == list + Flatten(blocks, b => SilentBlock(b, name))
  {
    list' := list;
    for j := 0 to |blocks|
      invariant list' == list + Flatten(blocks[..j], b => SilentBlock(b, name))
    {
      FlattenNext(blocks, b => SilentBlock(b, name), j);
      var block := blocks[j];
      if block.Block? {
        var title := CellText(block.cells, "COMPANY:");
        var description := CellText(block.cells, "COMPANY INFO:");
        if KeptTitle(title) {
          list' := list' + [Entry(title, description, name)];
        }
      }
    }
    assert blocks[..|blocks|] == blocks;
  }

  /** silentransomgroup.py `main` (lines 7-49). */
  method SilentMain(files: seq<SourceFile<SilentPage>>) returns (list: seq<Entry>)
    ensures list == SilentEntries(files)
  {
    list := [];
    for i := 0 to |files|
      invariant list == SilentEntries(files[..i])
    {
      FlattenNext(files, SilentFile, i);
      var file := files[i];
      if OfGroup(file.name, SilentGroup) && file.page.SilentPage? {
        list := SilentBlocks(list, file.name, file.page.blocks);
      }
    }
    assert files[..|files|] == files;
  }

  /** An entry from one block has a full, trimmed title and the block's
      page as its slug. */
  lemma SilentBlockSound(b: Block, slug: string, e: Entry)
    requires e in SilentBlock(b, slug)
    ensures KeptTitle(e.title) && !IsSpace(e.title[0]) && !IsSpace(e.title[|e.title| - 1])
    ensures e.slug == slug
  {
    var k := FirstWhere(b.cells, c => Labelled(c, "COMPANY:"));
    GetTextTrimmed(b.cells[k].next.value);
  }

  /** An entry from one file has a full, trimmed title and the file's name,
      one of the group's, as its slug. */
  lemma SilentFileSound(f: SourceFile<SilentPage>, e: Entry)
    requires e in SilentFile(f)
    ensures KeptTitle(e.title) && !IsSpace(e.title[0]) && !IsSpace(e.title[|e.title| - 1])
    ensures e.slug == f.name && OfGroup(f.name, SilentGroup)
  {
    FlattenFrom(f.page.blocks, b => SilentBlock(b, f.name), e);
    var j :| 0 <= j < |f.page.blocks| && e in SilentBlock(f.page.blocks[j], f.name);
    SilentBlockSound(f.page.blocks[j], f.name, e);
  }

  /** Every entry has a non-empty title without `...` and without
      whitespace at either end, and its slug is the name of one of the
      group's files. */
  lemma SilentEntriesSound(files: seq<SourceFile<SilentPage>>)
    ensures forall e | e in SilentEntries(files) ::
      && KeptTitle(e.title) && !IsSpace(e.title[0]) && !IsSpace(e.title[|e.title| - 1])
      && OfGroup(e.slug, SilentGroup)
      && exists i | 0 <= i < |files| :: files[i].name == e.slug
  {
    forall e | e in SilentEntries(files)
      ensures && KeptTitle(e.title) && !IsSpace(e.title[0]) && !IsSpace(e.title[|e.title| - 1])
              && OfGroup(e.slug, SilentGroup)
              && exists i | 0 <= i < |files| :: files[i].name == e.slug
    {
      FlattenFrom(files, SilentFile, e);
      var i :| 0 <= i < |files| && e in SilentFile(files[i]);
      SilentFileSound(files[i], e);
    }
  }

  /** Entries come in file order, and within a file in block order. */
  lemma SilentOrder(a: seq<SourceFile<SilentPage>>, b: seq<SourceFile<SilentPage>>, name: string,
                    x: seq<Block>, y: seq<Block>)
    ensures SilentEntries(a + b) == SilentEntries(a) + SilentEntries(b)
    ensures SilentFile(SourceFile(name, SilentPage(x + y)))
         == SilentFile(SourceFile(name, SilentPage(x))) + SilentFile(SourceFile(name, SilentPage(y)))
  {
    FlattenAppend(a, b, SilentFile);
    FlattenAppend(x, y, b => SilentBlock(b, name));
  }

  /** A file that cannot be read costs only its own entries, and a block
      whose handling raises costs only its own. */
  lemma SilentIsolation(a: seq<SourceFile<SilentPage>>, b: seq<SourceFile<SilentPage>>, name: string,
                        x: seq<Block>, y: seq<Block>)
    ensures SilentEntries(a + [SourceFile(name, UnreadablePage)] + b) == SilentEntries(a) + SilentEntries(b)
    ensures SilentFile(SourceFile(name, SilentPage(x + [BrokenBlock] + y)))
         == SilentFile(SourceFile(name, SilentPage(x + y)))
  {
    FlattenSkip(a, SourceFile(name, UnreadablePage), b, SilentFile);
    var part := b => SilentBlock(b, name);
    FlattenSkip(x, BrokenBlock, y, part);
    FlattenAppend(x, y, part);
  }

  /** A file whose name does not start with `silentransomgroup-` gives no
      entry, whatever it holds. */
  lemma SilentForeign(a: seq<SourceFile<SilentPage>>, f: SourceFile<SilentPage>)
    requires !OfGroup(f.name, SilentGroup)
    ensures SilentEntries(a + [f]) == SilentEntries(a)
  {
    assert (a + [f])[..|a|] == a;
  }

  // ---------------------------------------------------------------------
  // ransomlook/parsers/datavault.py

  /** The module's group name, the last part of its `__name__` (line 18). */
  const VaultGroup: string := "datavault"

  /** A `main_block_ul` that qualifies for `key` (line 11): exactly two
      `main_block_li` items, the first of which mentions `key`,
      ignoring case. */
  predicate Qualifies(items: seq<string>, key: string) {
    |items| == 2 && Contains(LowerAscii(Strip(items[0])), LowerAscii(key))
  }

  /** The value `extract_text_from_block` finds for `key`. */
  function LabelValue(uls: seq<seq<string>>, key: string): string {
    var k := FirstWhere(uls, items => Qualifies(items, key));
    if k < |uls| then Strip(uls[k][1]) else ""
  }

  /** `extract_text_from_block` (lines 6-13), with each `main_block_ul` given
      as the `.text` of its `main_block_li` items. */
  method ExtractTextFromBlock(uls: seq<seq<string>>, key: string) returns (value: string)
    ensures value == LabelValue(uls, key)
  {
    for k := 0 to |uls|
      invariant forall j | 0 <= j < k :: !Qualifies(uls[j], key)
    {
      var items := uls[k];
      if |items| == 2 && Contains(LowerAscii(Strip(items[0])), LowerAscii(key)) {
        FirstWhereIs(uls, items => Qualifies(items, key), k);
        return Strip(items[1]);
      }
    }
    FirstWhereIs(uls, items => Qualifies(items, key), |uls|);
    return "";
  }

  /** The value found is always stripped, and is `''` when no list
      qualifies. */
  lemma LabelValueTrimmed(uls: seq<seq<string>>, key: string)
    ensures Strip(LabelValue(uls, key)) == LabelValue(uls, key)
    ensures (forall k | 0 <= k < |uls| :: !Qualifies(uls[k], key)) ==> LabelValue(uls, key) == ""
  {
    var k := FirstWhere(uls, items => Qualifies(items, key));
    if k < |uls| {
      StripIdempotent(uls[k][1]);
    } else {
      assert Strip([]) == [];
    }
  }

  /** A `main_block` element: the `.text` of its `main_block_title` div and
      the texts of the `p` elements of its `notes-content` div, each absent
      when that div is missing, or one whose handling raises (caught at
      line 48). */
  datatype Victim = Victim(title: Option<string>, notes: Option<seq<string>>) | BrokenVictim

  /** A page's `main_block` elements, or `None` for a file that cannot be
      opened or parsed (caught at line 50). */
  type VaultPage = Option<seq<Victim>>

  predicate NonBlank(s: string) {
    s != []
  }

  /** Line 40: the stripped, non-blank paragraphs joined by newlines. */
  function Description(paragraphs: seq<string>): string {
    Join(Collect(paragraphs, Strip, NonBlank), "\n")
  }

  /** Lines 32-49: the entry one `main_block` gives. */
  function VaultVictim(v: Victim, slug: string): seq<Entry> {
    match v
    case BrokenVictim => []
    case Victim(title, notes) =>
      if title.None? || Strip(title.value) == [] then []
      else [Entry(Strip(title.value), Description(if notes.Some? then notes.value else []), slug)]
  }

  /** Lines 21-51: the entries one file gives. */
  function VaultFile(f: SourceFile<VaultPage>): seq<Entry> {
    if OfGroup(f.name, VaultGroup) && f.page.Some? then
      Flatten(f.page.value, v => VaultVictim(v, f.name))
    else []
  }

  /** What `main` returns for the files of `source/`, in listing order. */
  function VaultEntries(files: seq<SourceFile<VaultPage>>): seq<Entry> {
    Flatten(files, VaultFile)
  }

  /** Lines 31-49: the `main_block` elements of one page, each adding its
      entry to `list`. */
  method VaultVictims(list: seq<Entry>, name: string, victims: seq<Victim>) returns (list': seq<Entry>)
    ensures list' == list + Flatten(victims, v => VaultVictim(v, name))
  {
    list' := list;
    for j := 0 to |victims|
      invariant list' == list + Flatten(victims[..j], v => VaultVictim(v, name))
    {
      FlattenNext(victims, v => VaultVictim(v, name), j);
      var victim := victims[j];
      if victim.BrokenVictim? || victim.title.None? {
        continue;
      }
      var title := Strip(victim.title.value);
      var paragraphs := if victim.notes.Some? then victim.notes.value else [];
      var description := Description(paragraphs);
      if title != [] {
        list' := list' + [Entry(title, description, name)];
      }
    }
    assert victims[..|victims|] == victims;
  }

  /** datavault.py `main` (lines 16-54). */
  method VaultMain(files: seq<SourceFile<VaultPage>>) returns (list: seq<Entry>)
    ensures list == VaultEntries(files)
  {
    list := [];
    for i := 0 to |files|
      invariant list == VaultEntries(files[..i])
    {
      FlattenNext(files, VaultFile, i);
      var file := files[i];
      if !OfGroup(file.name, VaultGroup) {
        continue;
      }
      if file.page.Some? {
        list := VaultVictims(list, file.name, file.page.value);
      }
    }
    assert files[..|files|] == files;
  }

  /** Joining non-empty pieces gives the empty string only when there are
      no pieces. */
  lemma JoinEmpty(parts: seq<string>, sep: string)
    requires forall k | 0 <= k < |parts| :: parts[k] != []
    ensures Join(parts, sep) == [] <==> parts == []
  {
    if |parts| > 1 {
      assert |Join(parts, sep)| >= |parts[0]|;
    }
  }

  /** The description is empty exactly when every paragraph is blank. */
  lemma DescriptionEmpty(paragraphs: seq<string>)
    ensures Description(paragraphs) == [] <==> forall k | 0 <= k < |paragraphs| :: Strip(paragraphs[k]) == []
  {
    CollectEmpty(paragraphs, Strip, NonBlank);
    CollectAll(paragraphs, Strip, NonBlank, s => true);
    JoinEmpty(Collect(paragraphs, Strip, NonBlank), "\n");
  }

  /** Splitting at a separator that the first piece does not hold cuts that
      piece off. */
  lemma {:induction false} SplitAfter(x: string, y: string, sep: char)
    requires sep !in x
    ensures Split(x + [sep] + y, sep) == [x] + Split(y, sep)
    decreases |x|
  {
    if x == [] {
      assert x + [sep] + y == [sep] + y;
      assert ([sep] + y)[1..] == y;
    } else {
      SplitAfter(x[1..], y, sep);
      assert (x + [sep] + y)[1..] == x[1..] + [sep] + y;
      assert [x[0]] + x[1..] == x;
    }
  }

  /** A piece without the separator splits into itself. */
  lemma {:induction false} SplitWhole(x: string, sep: char)
    requires sep !in x
    ensures Split(x, sep) == [x]
    decreases |x|
  {
    if x != [] {
      SplitWhole(x[1..], sep);
      assert [x[0]] + x[1..] == x;
    }
  }

  /** Splitting what was joined gives back the pieces, when none holds the
      separator. */
  lemma {:induction false} SplitJoin(parts: seq<string>, sep: char)
    requires parts != []
    requires forall k | 0 <= k < |parts| :: sep !in parts[k]
    ensures Split(Join(parts, [sep]), sep) == parts
    decreases |parts|
  {
    if |parts| == 1 {
      SplitWhole(parts[0], sep);
    } else {
      SplitJoin(parts[1..], sep);
      SplitAfter(parts[0], Join(parts[1..], [sep]), sep);
    }
  }

  /** When no paragraph holds a newline, the description's lines are the
      stripped, non-blank paragraphs, in order. */
  lemma DescriptionLines(paragraphs: seq<string>)
    requires forall k | 0 <= k < |paragraphs| :: '\n' !in paragraphs[k]
    requires Description(paragraphs) != []
    ensures Split(Description(paragraphs), '\n') == Collect(paragraphs, Strip, NonBlank)
  {
    var kept := Collect(paragraphs, Strip, NonBlank);
    forall i | 0 <= i < |paragraphs|
      ensures '\n' !in Strip(paragraphs[i])
    {
      StripKeepsOut(paragraphs[i], '\n');
    }
    CollectAll(paragraphs, Strip, NonBlank, s => '\n' !in s);
    SplitJoin(kept, '\n');
  }

  /** An entry from one `main_block` has a non-empty, stripped title. */
  lemma VaultVictimSound(v: Victim, slug: string, e: Entry)
    requires e in VaultVictim(v, slug)
    ensures e.title != [] && Strip(e.title) == e.title && e.slug == slug
  {
    StripIdempotent(v.title.value);
  }

  /** An entry from one file has a non-empty, stripped title and the file's
      name, one of the group's, as its slug. */
  lemma VaultFileSound(f: SourceFile<VaultPage>, e: Entry)
    requires e in VaultFile(f)
    ensures e.title != [] && Strip(e.title) == e.title
    ensures e.slug == f.name && OfGroup(f.name, VaultGroup)
  {
    FlattenFrom(f.page.value, v => VaultVictim(v, f.name), e);
    var j :| 0 <= j < |f.page.value| && e in VaultVictim(f.page.value[j], f.name);
    VaultVictimSound(f.page.value[j], f.name, e);
  }

  /** Every entry has a non-empty, stripped title, and its slug is the name
      of one of the group's files. */
  lemma VaultEntriesSound(files: seq<SourceFile<VaultPage>>)
    ensures forall e | e in VaultEntries(files) ::
      && e.title != [] && Strip(e.title) == e.title
      && OfGroup(e.slug, VaultGroup)
      && exists i | 0 <= i < |files| :: files[i].name == e.slug
  {
    forall e | e in VaultEntries(files)
      ensures && e.title != [] && Strip(e.title) == e.title
              && OfGroup(e.slug, VaultGroup)
              && exists i | 0 <= i < |files| :: files[i].name == e.slug
    {
      FlattenFrom(files, VaultFile, e);
      var i :| 0 <= i < |files| && e in VaultFile(files[i]);
      VaultFileSound(files[i], e);
    }
  }

  /** A file that cannot be read costs only its own entries, and so does a
      `main_block` whose handling raises or that has no title. */
  lemma VaultIsolation(a: seq<SourceFile<VaultPage>>, b: seq<SourceFile<VaultPage>>, name: string,
                       x: seq<Victim>, y: seq<Victim>, notes: Option<seq<string>>)
    ensures VaultEntries(a + [SourceFile(name, None)] + b) == VaultEntries(a) + VaultEntries(b)
    ensures VaultFile(SourceFile(name, Some(x + [BrokenVictim] + y))) == VaultFile(SourceFile(name, Some(x + y)))
    ensures VaultFile(SourceFile(name, Some(x + [Victim(None, notes)] + y))) == VaultFile(SourceFile(name, Some(x + y)))
  {
    FlattenSkip(a, SourceFile(name, None), b, VaultFile);
    var part := v => VaultVictim(v, name);
    FlattenSkip(x, BrokenVictim, y, part);
    FlattenSkip(x, Victim(None, notes), y, part);
    FlattenAppend(x, y, part);
  }

  /** Entries come in file order, and within a file in page order. */
  lemma VaultOrder(a: seq<SourceFile<VaultPage>>, b: seq<SourceFile<VaultPage>>, name: string,
                   x: seq<Victim>, y: seq<Victim>)
    ensures VaultEntries(a + b) == VaultEntries(a) + VaultEntries(b)
    ensures VaultFile(SourceFile(name, Some(x + y)))
         == VaultFile(SourceFile(name, Some(x))) + VaultFile(SourceFile(name, Some(y)))
  {
    FlattenAppend(a, b, VaultFile);
    FlattenAppend(x, y, v => VaultVictim(v, name));
  }
}
