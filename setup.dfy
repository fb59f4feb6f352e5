/** The setup manifest (`WriteSetupFile`): the work list of links and zone
    names that the zone compactor is given, built from the region files of
    the IANA time zone database. */
module Setup {
  import opened Tzdata
  import opened Tokens
  import opened Lexicographic

  /** What one line of a region file contributes to the manifest. */
  datatype Record =
    | LinkRecord(target: string, alias: string)  // `Link <target> <alias> ...`
    | ZoneRecord(name: string)                   // `Zone <name> ...`
    | Ignored                                    // blank, comment, `Rule`, continuation, ...

  /** The manifest entry of a link. */
  function LinkEntry(target: string, alias: string): string {
    "Link " + target + " " + alias
  }

  /** Classifies a line by its first whitespace-separated field. A `Link`
      line with fewer than three fields or a `Zone` line with fewer than two
      indexes past the end of the field list. */
  function ParseLine(line: string): (r: Result<Record>)
    ensures r.Err? ==> r.error == IndexError
    ensures r.Ok? && r.value.LinkRecord? ==> IsWord(r.value.target) && IsWord(r.value.alias)
    ensures r.Ok? && r.value.ZoneRecord? ==> IsWord(r.value.name)
  {
    var fields := Split(line);
    if fields == [] then Ok(Ignored)
    else if fields[0] == "Link" then
      if |fields| < 3 then Err(IndexError) else Ok(LinkRecord(fields[1], fields[2]))
    else if fields[0] == "Zone" then
      if |fields| < 2 then Err(IndexError) else Ok(ZoneRecord(fields[1]))
    else Ok(Ignored)
  }

  /** A `Link` line, however each gap between its fields is spaced and
      whatever follows the alias, yields its second and third fields as
      target and alias; later fields are dropped. */
  lemma ParseLinkLine(lead: string, ws: seq<string>, gaps: seq<string>, trail: string)
    requires IsBlank(lead) && IsBlank(trail)
    requires ws != [] ==> |gaps| == |ws| - 1
    requires forall i :: 0 <= i < |gaps| ==> IsGap(gaps[i])
    requires forall i :: 0 <= i < |ws| ==> IsWord(ws[i])
    requires |ws| >= 3 && ws[0] == "Link"
    ensures ParseLine(lead + Join(ws, gaps) + trail) == Ok(LinkRecord(ws[1], ws[2]))
  {
    SplitJoin(lead, ws, gaps, trail);
  }

  /** A `Zone` line yields its second field as the zone name; the rest of
      the line is dropped. */
  lemma ParseZoneLine(lead: string, ws: seq<string>, gaps: seq<string>, trail: string)
    requires IsBlank(lead) && IsBlank(trail)
    requires ws != [] ==> |gaps| == |ws| - 1
    requires forall i :: 0 <= i < |gaps| ==> IsGap(gaps[i])
    requires forall i :: 0 <= i < |ws| ==> IsWord(ws[i])
    requires |ws| >= 2 && ws[0] == "Zone"
    ensures ParseLine(lead + Join(ws, gaps) + trail) == Ok(ZoneRecord(ws[1]))
  {
    SplitJoin(lead, ws, gaps, trail);
  }

  /** A `Link` line with fewer than three fields, or a `Zone` line with
      fewer than two, is an error rather than a skipped line. */
  lemma ParseShortLine(lead: string, ws: seq<string>, gaps: seq<string>, trail: string)
    requires IsBlank(lead) && IsBlank(trail)
    requires ws != [] ==> |gaps| == |ws| - 1
    requires forall i :: 0 <= i < |gaps| ==> IsGap(gaps[i])
    requires forall i :: 0 <= i < |ws| ==> IsWord(ws[i])
    requires ws != [] && ((ws[0] == "Link" && |ws| < 3) || (ws[0] == "Zone" && |ws| < 2))
    ensures ParseLine(lead + Join(ws, gaps) + trail) == Err(IndexError)
  {
    SplitJoin(lead, ws, gaps, trail);
  }

  /** Blank lines and lines whose first field is anything but `Link` or
      `Zone` (a comment, a `Rule` line, a continuation line) contribute
      nothing. */
  lemma ParseIgnoredLine(lead: string, ws: seq<string>, gaps: seq<string>, trail: string)
    requires IsBlank(lead) && IsBlank(trail)
    requires ws != [] ==> |gaps| == |ws| - 1
    requires forall i :: 0 <= i < |gaps| ==> IsGap(gaps[i])
    requires forall i :: 0 <= i < |ws| ==> IsWord(ws[i])
    requires ws == [] || (ws[0] != "Link" && ws[0] != "Zone")
    ensures ParseLine(lead + Join(ws, gaps) + trail) == Ok(Ignored)
  {
    SplitJoin(lead, ws, gaps, trail);
  }

  /** The `links` and `zones` lists as the script accumulates them. */
  datatype Collected = Collected(links: seq<string>, zones: seq<string>)

  function Add(c: Collected, rec: Record): Collected {
    match rec
    case LinkRecord(target, alias) => Collected(c.links + [LinkEntry(target, alias)], c.zones + [alias])
    case ZoneRecord(name) => Collected(c.links, c.zones + [name])
    case Ignored => c
  }

  /** The lists after reading `lines` in order; the first short record
      aborts the whole run. */
  function Collect(lines: seq<string>): (r: Result<Collected>)
    ensures r.Err? ==> r.error == IndexError
    ensures r.Ok? ==> |r.value.links| <= |r.value.zones|
    ensures r.Ok? ==> forall i :: 0 <= i < |r.value.zones| ==> IsWord(r.value.zones[i])
    decreases |lines|
  {
    if lines == [] then Ok(Collected([], []))
    else
      var n := |lines| - 1;
      match Collect(lines[..n])
      case Err(e) => Err(e)
      case Ok(c) =>
        match ParseLine(lines[n])
        case Err(e) => Err(e)
        case Ok(rec) => Ok(Add(c, rec))
  }

  /** The two sections of the setup file. */
  datatype Manifest = Manifest(links: seq<string>, zones: seq<string>)

  /** `zones.sort()`, then `sorted(set(links))` and `sorted(set(zones))`. */
  function BuildManifest(lines: seq<string>): (r: Result<Manifest>)
    ensures r.Err? <==> Collect(lines).Err?
    ensures r.Ok? ==> StrictlySorted(r.value.links) && StrictlySorted(r.value.zones)
  {
    match Collect(lines)
    case Err(e) => Err(e)
    case Ok(c) => Ok(Manifest(SortedSet(c.links), SortedSet(Sort(c.zones))))
  }

  /** Each entry written as `'%s\n' % entry`. */
  function Render(entries: seq<string>): (text: string)
    ensures text == [] <==> entries == []
    ensures text != [] ==> text[|text| - 1] == '\n'
  {
    if entries == [] then [] else entries[0] + "\n" + Render(entries[1..])
  }

  /** All lines of all region files, region after region. */
  function Flatten(contents: seq<seq<string>>): seq<string> {
    if contents == [] then []
    else Flatten(contents[..|contents| - 1]) + contents[|contents| - 1]
  }

  /** The text of the setup file, given the lines of each region file. */
  function SetupText(contents: seq<seq<string>>): (r: Result<string>)
    ensures r.Err? ==> r.error == IndexError
    ensures r.Ok? && r.value != [] ==> r.value[|r.value| - 1] == '\n'
  {
    match BuildManifest(Flatten(contents))
    case Err(e) => Err(e)
    case Ok(m) => Ok(Render(m.links + m.zones))
  }

  /** Reads the region files (`contents[i]` holds the lines of the file
      named `Regions[i]`) and returns the text of the setup file. */
  method WriteSetupFile(contents: seq<seq<string>>) returns (r: Result<string>)
    requires |contents| == |Regions|
    ensures r == SetupText(contents)
  {
    var collected := CollectRegions(contents);
    if collected.Err? {
      return Err(collected.error);
    }
    var links, zones := collected.value.links, collected.value.zones;
    zones := Sort(zones);
    var linkSection := SortedSet(links);
    var zoneSection := SortedSet(zones);
    var text := WriteEntries("", linkSection);
    assert text == Render(linkSection);
    text := WriteEntries(text, zoneSection);
    RenderConcat(linkSection, zoneSection);
    assert BuildManifest(Flatten(contents)) == Ok(Manifest(linkSection, zoneSection));
    r := Ok(text);
  }

  /** The nested loops of `WriteSetupFile` over the region files and their
      lines, appending to `links` and `zones`. */
  method CollectRegions(contents: seq<seq<string>>) returns (r: Result<Collected>)
    requires |contents| == |Regions|
    ensures r == Collect(Flatten(contents))
  {
    var links: seq<string> := [];
    var zones: seq<string> := [];
    for i := 0 to |Regions|
      invariant Collect(Flatten(contents[..i])) == Ok(Collected(links, zones))
    {
      var lines := contents[i];
      ghost var before := Flatten(contents[..i]);
      assert before + lines[..0] == before;
      for k := 0 to |lines|
        invariant Collect(before + lines[..k]) == Ok(Collected(links, zones))
      {
        CollectNext(before, lines, k);
        var fields := Split(lines[k]);
        if fields != [] {
          if fields[0] == "Link" {
            if |fields| < 3 {
              FailureIsFinal(contents, i, k);
              return Err(IndexError);
            }
            links := links + [fields[0] + " " + fields[1] + " " + fields[2]];
            zones := zones + [fields[2]];
          } else if fields[0] == "Zone" {
            if |fields| < 2 {
              FailureIsFinal(contents, i, k);
              return Err(IndexError);
            }
            zones := zones + [fields[1]];
          }
        }
      }
      FlattenNext(contents, i);
      assert lines[..|lines|] == lines;
    }
    assert contents[..|Regions|] == contents;
    r := Ok(Collected(links, zones));
  }

  /** One of the write loops: `setup.write('%s\n' % entry)` for each entry. */
  method WriteEntries(text: string, entries: seq<string>) returns (out: string)
    ensures out == text + Render(entries)
  {
    out := text;
    for k := 0 to |entries|
      invariant out == text + Render(entries[..k])
    {
      RenderAppend(entries[..k], entries[k]);
      assert entries[..k + 1] == entries[..k] + [entries[k]];
      out := out + entries[k] + "\n";
    }
    assert entries[..|entries|] == entries;
  }

  lemma {:induction false} RenderConcat(a: seq<string>, b: seq<string>)
    ensures Render(a + b) == Render(a) + Render(b)
    decreases |a|
  {
    if a == [] {
      assert a + b == b;
    } else {
      assert (a + b)[1..] == a[1..] + b;
      RenderConcat(a[1..], b);
    }
  }

  /** Reading one more line: what the loop body of the script does. */
  lemma CollectNext(before: seq<string>, lines: seq<string>, k: nat)
    requires k < |lines| && Collect(before + lines[..k]).Ok?
    ensures var c := Collect(before + lines[..k]).value;
      ParseLine(lines[k]).Ok? ==> Collect(before + lines[..k + 1]) == Ok(Add(c, ParseLine(lines[k]).value))
    ensures var c, f := Collect(before + lines[..k]).value, Split(lines[k]);
      f != [] && f[0] == "Link" && |f| >= 3 ==>
        Add(c, ParseLine(lines[k]).value) == Collected(c.links + [f[0] + " " + f[1] + " " + f[2]], c.zones + [f[2]])
  {
    var p := before + lines[..k];
    var q := before + lines[..k + 1];
    assert q[..|q| - 1] == p;
    assert q[|q| - 1] == lines[k];
    assert "Link" + " " == "Link ";
  }

  lemma FlattenNext(contents: seq<seq<string>>, i: nat)
    requires i < |contents|
    ensures Flatten(contents[..i + 1]) == Flatten(contents[..i]) + contents[i]
  {
    assert contents[..i + 1][..i] == contents[..i];
  }

  lemma {:induction false} RenderAppend(entries: seq<string>, e: string)
    ensures Render(entries + [e]) == Render(entries) + e + "\n"
    decreases |entries|
  {
    if entries != [] {
      assert (entries + [e])[1..] == entries[1..] + [e];
      RenderAppend(entries[1..], e);
    } else {
      assert [] + [e] == [e];
    }
  }

  /** A short record at line `k` of region `i` makes the whole setup fail. */
  lemma FailureIsFinal(contents: seq<seq<string>>, i: nat, k: nat)
    requires i < |contents| && k < |contents[i]|
    requires ParseLine(contents[i][k]).Err?
    ensures Collect(Flatten(contents)) == Err(IndexError)
    ensures SetupText(contents) == Err(IndexError)
  {
    var before := Flatten(contents[..i]) + contents[i][..k];
    var upTo := before + [contents[i][k]];
    assert upTo[..|upTo| - 1] == before;
    assert Collect(upTo).Err?;
    var after := contents[i][k + 1..] + Flatten(contents[i + 1..]);
    FlattenAt(contents, i, k);
    CollectFailureIsFinal(upTo, after);
  }

  /** All lines read, cut just after line `k` of region `i`. */
  lemma FlattenAt(contents: seq<seq<string>>, i: nat, k: nat)
    requires i < |contents| && k < |contents[i]|
    ensures Flatten(contents) ==
      (Flatten(contents[..i]) + contents[i][..k] + [contents[i][k]]) + (contents[i][k + 1..] + Flatten(contents[i + 1..]))
  {
    FlattenAppend(contents[..i + 1], contents[i + 1..]);
    assert contents[..i + 1] + contents[i + 1..] == contents;
    FlattenNext(contents, i);
    var line := contents[i];
    assert line == line[..k] + [line[k]] + line[k + 1..];
    var front, back := Flatten(contents[..i]), Flatten(contents[i + 1..]);
    assert front + line + back == (front + line[..k] + [line[k]]) + (line[k + 1..] + back);
  }

  lemma {:induction false} CollectFailureIsFinal(a: seq<string>, b: seq<string>)
    requires Collect(a).Err?
    ensures Collect(a + b) == Err(IndexError)
    decreases |b|
  {
    CollectErrorIsIndexError(a);
    if b != [] {
      var n := |b| - 1;
      CollectFailureIsFinal(a, b[..n]);
      assert (a + b)[..|a + b| - 1] == a + b[..n];
    } else {
      assert a + b == a;
    }
  }

  lemma {:induction false} CollectErrorIsIndexError(lines: seq<string>)
    ensures Collect(lines).Err? ==> Collect(lines).error == IndexError
    decreases |lines|
  {
    if lines != [] {
      CollectErrorIsIndexError(lines[..|lines| - 1]);
    }
  }

  lemma {:induction false} FlattenAppend(a: seq<seq<string>>, b: seq<seq<string>>)
    ensures Flatten(a + b) == Flatten(a) + Flatten(b)
    decreases |b|
  {
    if b == [] {
      assert a + b == a;
    } else {
      var n := |b| - 1;
      assert (a + b)[..|a + b| - 1] == a + b[..n];
      FlattenAppend(a, b[..n]);
    }
  }

  // ----- What the manifest holds, stated on the fields of each line -----

  /** `line` is a `Link` line whose manifest entry is `entry`. */
  predicate DeclaresLink(line: string, entry: string) {
    var f := Split(line);
    |f| >= 3 && f[0] == "Link" && entry == f[0] + " " + f[1] + " " + f[2]
  }

  /** `line` is a `Zone` line naming `name`, or a `Link` line whose alias is `name`. */
  predicate NamesZone(line: string, name: string) {
    var f := Split(line);
    (|f| >= 2 && f[0] == "Zone" && f[1] == name) || (|f| >= 3 && f[0] == "Link" && f[2] == name)
  }

  /** A `Link` line with fewer than three fields or a `Zone` line with fewer than two. */
  predicate IsShortRecord(line: string) {
    var f := Split(line);
    f != [] && ((f[0] == "Link" && |f| < 3) || (f[0] == "Zone" && |f| < 2))
  }

  /** What a single line adds to empty lists. */
  function Contribution(rec: Record): Collected {
    Add(Collected([], []), rec)
  }

  lemma ParseLineAgrees(line: string)
    ensures ParseLine(line).Err? <==> IsShortRecord(line)
    ensures ParseLine(line).Ok? ==>
      (forall e :: e in Contribution(ParseLine(line).value).links <==> DeclaresLink(line, e))
    ensures ParseLine(line).Ok? ==>
      (forall z :: z in Contribution(ParseLine(line).value).zones <==> NamesZone(line, z))
  {
    assert "Link" + " " == "Link ";
  }

  /** Some line read is a short record. */
  predicate HasShortRecord(lines: seq<string>) {
    exists l :: l in lines && IsShortRecord(l)
  }

  /** Some line read is a `Link` line with manifest entry `entry`. */
  predicate LinkDeclared(lines: seq<string>, entry: string) {
    exists l :: l in lines && DeclaresLink(l, entry)
  }

  /** Some line read names `name` as a zone or as a link alias. */
  predicate ZoneNamed(lines: seq<string>, name: string) {
    exists l :: l in lines && NamesZone(l, name)
  }

  /** Collecting fails exactly when some line read is a short record. */
  lemma {:induction false} CollectFailsIffShortRecord(lines: seq<string>)
    ensures Collect(lines).Err? <==> HasShortRecord(lines)
    decreases |lines|
  {
    if lines != [] {
      var n := |lines| - 1;
      var p := lines[..n];
      assert lines == p + [lines[n]];
      CollectFailsIffShortRecord(p);
      ParseLineAgrees(lines[n]);
      if HasShortRecord(lines) {
        var l :| l in lines && IsShortRecord(l);
        assert l in p || l == lines[n];
      }
      if HasShortRecord(p) {
        var l :| l in p && IsShortRecord(l);
        assert l in lines;
      }
    }
  }

  /** The `links` list holds exactly the link entries of the lines read. */
  lemma {:induction false} CollectedLinks(lines: seq<string>)
    requires Collect(lines).Ok?
    ensures forall e :: e in Collect(lines).value.links <==> LinkDeclared(lines, e)
    decreases |lines|
  {
    if lines != [] {
      var n := |lines| - 1;
      var p := lines[..n];
      assert lines == p + [lines[n]];
      CollectedLinks(p);
      ParseLineAgrees(lines[n]);
      var c := Collect(p).value;
      var d := Contribution(ParseLine(lines[n]).value);
      assert Collect(lines).value.links == c.links + d.links;
      forall e ensures e in c.links + d.links <==> LinkDeclared(lines, e) {
        if LinkDeclared(lines, e) {
          var l :| l in lines && DeclaresLink(l, e);
          assert l in p || l == lines[n];
        }
        if LinkDeclared(p, e) {
          var l :| l in p && DeclaresLink(l, e);
          assert l in lines;
        }
      }
    }
  }

  /** The `zones` list holds exactly the zone names and link aliases of the
      lines read. */
  lemma {:induction false} CollectedZones(lines: seq<string>)
    requires Collect(lines).Ok?
    ensures forall z :: z in Collect(lines).value.zones <==> ZoneNamed(lines, z)
    decreases |lines|
  {
    if lines != [] {
      var n := |lines| - 1;
      var p := lines[..n];
      assert lines == p + [lines[n]];
      CollectedZones(p);
      ParseLineAgrees(lines[n]);
      var c := Collect(p).value;
      var d := Contribution(ParseLine(lines[n]).value);
      assert Collect(lines).value.zones == c.zones + d.zones;
      forall z ensures z in c.zones + d.zones <==> ZoneNamed(lines, z) {
        if ZoneNamed(lines, z) {
          var l :| l in lines && NamesZone(l, z);
          assert l in p || l == lines[n];
        }
        if ZoneNamed(p, z) {
          var l :| l in p && NamesZone(l, z);
          assert l in lines;
        }
      }
    }
  }

  /** Both sections are strictly increasing, so each entry appears once; the
      link section holds exactly the link entries of the lines read, and the
      zone section exactly the names of their `Zone` lines and the aliases of
      their `Link` lines. */
  lemma ManifestSortedAndExact(lines: seq<string>)
    requires BuildManifest(lines).Ok?
    ensures var m := BuildManifest(lines).value;
      && StrictlySorted(m.links) && StrictlySorted(m.zones)
      && (forall i, j :: 0 <= i < j < |m.links| ==> m.links[i] != m.links[j])
      && (forall i, j :: 0 <= i < j < |m.zones| ==> m.zones[i] != m.zones[j])
      && (forall e :: e in m.links <==> LinkDeclared(lines, e))
      && (forall z :: z in m.zones <==> ZoneNamed(lines, z))
  {
    var c := Collect(lines).value;
    CollectedLinks(lines);
    CollectedZones(lines);
    SortedSetAfterSort(c.zones);
    StrictlySortedDistinct(SortedSet(c.links));
    StrictlySortedDistinct(SortedSet(c.zones));
  }

  /** Building the manifest fails, with `IndexError`, exactly when some line
      read is a short `Link` or `Zone` record: such lines are not skipped. */
  lemma ManifestFailsOnShortRecord(lines: seq<string>)
    ensures BuildManifest(lines).Err? <==> HasShortRecord(lines)
    ensures BuildManifest(lines).Err? ==> BuildManifest(lines).error == IndexError
  {
    CollectFailsIffShortRecord(lines);
    CollectErrorIsIndexError(lines);
  }

  /** The manifest depends only on which lines were read: reordering lines,
      or repeating them, changes nothing. */
  lemma ManifestIgnoresLineOrder(lines1: seq<string>, lines2: seq<string>)
    requires forall l :: l in lines1 <==> l in lines2
    ensures BuildManifest(lines1) == BuildManifest(lines2)
  {
    CollectFailsIffShortRecord(lines1);
    CollectFailsIffShortRecord(lines2);
    CollectErrorIsIndexError(lines1);
    CollectErrorIsIndexError(lines2);
    assert HasShortRecord(lines1) <==> HasShortRecord(lines2);
    if Collect(lines1).Ok? {
      var c1, c2 := Collect(lines1).value, Collect(lines2).value;
      CollectedLinks(lines1);
      CollectedLinks(lines2);
      CollectedZones(lines1);
      CollectedZones(lines2);
      assert forall e :: LinkDeclared(lines1, e) <==> LinkDeclared(lines2, e);
      assert forall z :: ZoneNamed(lines1, z) <==> ZoneNamed(lines2, z);
      SortedSetOfSameElements(c1.links, c2.links);
      SortedSetAfterSort(c1.zones);
      SortedSetAfterSort(c2.zones);
      SortedSetOfSameElements(c1.zones, c2.zones);
    }
  }

  lemma {:induction false} FlattenMembers(contents: seq<seq<string>>)
    ensures forall l :: l in Flatten(contents) <==> exists j :: 0 <= j < |contents| && l in contents[j]
    decreases |contents|
  {
    if contents != [] {
      var n := |contents| - 1;
      FlattenMembers(contents[..n]);
      assert forall j :: 0 <= j < n ==> contents[..n][j] == contents[j];
    }
  }

  /** The order of the region files does not matter to the setup file, nor
      does reading a region file twice: the override order of `backward` and
      `backzone` only matters to the zone compiler. */
  lemma SetupIgnoresRegionOrder(contents1: seq<seq<string>>, contents2: seq<seq<string>>)
    requires forall lines :: lines in contents1 <==> lines in contents2
    ensures SetupText(contents1) == SetupText(contents2)
  {
    FlattenMembers(contents1);
    FlattenMembers(contents2);
    forall l ensures l in Flatten(contents1) <==> l in Flatten(contents2) {
      if l in Flatten(contents1) {
        var j :| 0 <= j < |contents1| && l in contents1[j];
        assert contents1[j] in contents2;
      }
      if l in Flatten(contents2) {
        var j :| 0 <= j < |contents2| && l in contents2[j];
        assert contents2[j] in contents1;
      }
    }
    ManifestIgnoresLineOrder(Flatten(contents1), Flatten(contents2));
  }

  // ----- Reading the setup file back -----

  /** Length of the first line of `text`, without its line feed. */
  function LineLength(text: string): (n: nat)
    ensures n <= |text|
    ensures forall k :: 0 <= k < n ==> text[k] != '\n'
    ensures n < |text| ==> text[n] == '\n'
  {
    if text == [] || text[0] == '\n' then 0 else 1 + LineLength(text[1..])
  }

  /** The lines of `text`, each without its line feed, as a line-by-line
      reader of the setup file sees them. */
  function LinesOf(text: string): seq<string>
    decreases |text|
  {
    if text == [] then []
    else
      var n := LineLength(text);
      if n == |text| then [text] else [text[..n]] + LinesOf(text[n + 1..])
  }

  /** Entries free of line feeds come back one per line. */
  lemma {:induction false} LinesOfRender(entries: seq<string>)
    requires forall i :: 0 <= i < |entries| ==> '\n' !in entries[i]
    ensures LinesOf(Render(entries)) == entries
    decreases |entries|
  {
    if entries != [] {
      var e, rest := entries[0], Render(entries[1..]);
      var text := Render(entries);
      assert text == e + ("\n" + rest);
      var n := LineLength(text);
      assert forall k :: 0 <= k < |e| ==> text[k] == e[k];
      assert text[|e|] == '\n';
      assert n == |e|;
      assert text[..n] == e;
      assert text[n + 1..] == rest;
      LinesOfRender(entries[1..]);
    }
  }

  /** Every manifest entry is made of whitespace-free fields joined by spaces,
      so no entry contains a line feed. */
  lemma ManifestEntriesAreSingleLines(lines: seq<string>)
    requires BuildManifest(lines).Ok?
    ensures var m := BuildManifest(lines).value;
      forall i :: 0 <= i < |m.links + m.zones| ==> '\n' !in (m.links + m.zones)[i]
  {
    var m := BuildManifest(lines).value;
    ManifestSortedAndExact(lines);
    forall x | x in m.links + m.zones ensures '\n' !in x {
      if x in m.links {
        var l :| l in lines && DeclaresLink(l, x);
        LinkEntryIsSingleLine(l, x);
      } else {
        var l :| l in lines && NamesZone(l, x);
        ZoneEntryField(l, x);
        assert IsWord(Split(x)[0]);
      }
    }
  }

  lemma LinkEntryIsSingleLine(line: string, e: string)
    requires DeclaresLink(line, e)
    ensures '\n' !in e
  {
    var f := Split(line);
    assert IsWord(f[0]) && IsWord(f[1]) && IsWord(f[2]);
    assert '\n' !in f[0] && '\n' !in f[1] && '\n' !in f[2];
  }

  /** A reader can tell the sections apart: every link entry splits into
      `Link`, a target and an alias, and every zone entry is a single field. */
  lemma ManifestEntryFields(lines: seq<string>)
    requires BuildManifest(lines).Ok?
    ensures var m := BuildManifest(lines).value;
      && (forall e :: e in m.links ==> |Split(e)| == 3 && Split(e)[0] == "Link")
      && (forall z :: z in m.zones ==> Split(z) == [z])
  {
    var m := BuildManifest(lines).value;
    ManifestSortedAndExact(lines);
    forall e | e in m.links ensures |Split(e)| == 3 && Split(e)[0] == "Link" {
      var l :| l in lines && DeclaresLink(l, e);
      LinkEntryFields(l, e);
    }
    forall z | z in m.zones ensures Split(z) == [z] {
      var l :| l in lines && NamesZone(l, z);
      ZoneEntryField(l, z);
    }
  }

  lemma LinkEntryFields(line: string, e: string)
    requires DeclaresLink(line, e)
    ensures Split(e) == Split(line)[..3]
  {
    var f := Split(line);
    var ws := [f[0], f[1], f[2]];
    assert ws[1..] == [f[1], f[2]] && ws[1..][1..] == [f[2]];
    var gaps := [" ", " "];
    assert gaps[1..] == [" "] && gaps[1..][1..] == [];
    assert Join([f[2]], []) == f[2];
    assert Join([f[1], f[2]], [" "]) == f[1] + " " + f[2];
    assert Join(ws, gaps) == f[0] + " " + Join([f[1], f[2]], [" "]);
    assert e == [] + Join(ws, gaps) + [];
    SplitJoin([], ws, gaps, []);
  }

  lemma ZoneEntryField(line: string, z: string)
    requires NamesZone(line, z)
    ensures Split(z) == [z]
  {
    var f := Split(line);
    assert IsWord(f[1]) && (|f| >= 3 ==> IsWord(f[2]));
    SplitWord(z, []);
    assert z + [] == z;
  }

  /** The setup file holds the link section, then the zone section, one
      entry per line. */
  lemma SetupFileReadsBack(contents: seq<seq<string>>)
    requires SetupText(contents).Ok?
    ensures var m := BuildManifest(Flatten(contents)).value;
      LinesOf(SetupText(contents).value) == m.links + m.zones
  {
    ManifestEntriesAreSingleLines(Flatten(contents));
    LinesOfRender(BuildManifest(Flatten(contents)).value.links + BuildManifest(Flatten(contents)).value.zones);
  }
}
