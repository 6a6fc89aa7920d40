/** The VERSION record of an installed agent: four KEY=VALUE lines written by the installer
    (scripts/lib/skybeat_agent_install.sh:104), and what survives of it when power is lost in
    the middle of rewriting it in place (scripts/agent-updater.py:236-241, 560). */
module VersionRecord {
  import opened Prelude

  datatype Identity = Identity(version: string, sha256: string, installedAt: string)

  predicate OneLine(s: string) {
    '\n' !in s
  }

  predicate WellFormed(id: Identity) {
    OneLine(id.version) && OneLine(id.sha256) && OneLine(id.installedAt)
  }

  function Line(key: string, value: string): string {
    key + "=" + value + "\n"
  }

  function Render(id: Identity): string {
    Line("package", "skybeat-agent")
    + (Line("version", id.version) + (Line("sha256", id.sha256) + Line("installed_at", id.installedAt)))
  }

  /** The text before the first `c`, all of it when there is none. */
  function Until(text: string, c: char): (r: string)
    ensures r <= text && c !in r
    ensures |r| < |text| ==> text[|r|] == c
  {
    if text == [] || text[0] == c then [] else [text[0]] + Until(text[1..], c)
  }

  /** The value a line gives `key`, when its text up to the first '=' is `key`. */
  function ValueIn(line: string, key: string): Option<string> {
    var k := Until(line, '=');
    if k != key then None else if |k| < |line| then Some(line[|k| + 1..]) else Some("")
  }

  /** The value of `key` in a text of lines; a later line overrides an earlier one. */
  function Field(text: string, key: string): Option<string>
    decreases |text|
  {
    if text == [] then None
    else
      var line := Until(text, '\n');
      var rest := if |line| < |text| then text[|line| + 1..] else [];
      var later := Field(rest, key);
      if later.Some? then later else ValueIn(line, key)
  }

  /** Splitting each line at '=' succeeds only when every line has one. */
  predicate Parses(text: string)
    decreases |text|
  {
    text == [] ||
    (var line := Until(text, '\n');
     '=' in line && (|line| < |text| ==> Parses(text[|line| + 1..])))
  }

  lemma {:induction false} UntilSplits(before: string, c: char, after: string)
    requires c !in before
    ensures Until(before + [c] + after, c) == before
    ensures Until(before, c) == before
  {
    var text := before + [c] + after;
    if before == [] {
      assert text[0] == c;
    } else {
      assert text[1..] == before[1..] + [c] + after;
      UntilSplits(before[1..], c, after);
      assert text[0] == before[0];
    }
  }

  lemma LineValue(key: string, value: string, other: string)
    requires '=' !in key && '=' !in other
    ensures ValueIn(key + "=" + value, other) == if other == key then Some(value) else None
  {
    UntilSplits(key, '=', value);
    assert (key + "=" + value)[|key| + 1..] == value;
  }

  /** A text that begins with a full line: the rest decides first. */
  lemma FieldOfLine(key: string, value: string, rest: string, other: string)
    requires '=' !in key && '=' !in other && OneLine(key) && OneLine(value)
    ensures Field(Line(key, value) + rest, other) ==
      if Field(rest, other).Some? then Field(rest, other)
      else if other == key then Some(value) else None
  {
    var line := key + "=" + value;
    var text := Line(key, value) + rest;
    assert text == line + ['\n'] + rest;
    UntilSplits(line, '\n', rest);
    assert text[|line| + 1..] == rest;
    LineValue(key, value, other);
  }

  /** A text that stops inside a line gives its key, at most, a prefix of its value. */
  lemma FieldOfTornLine(key: string, value: string, torn: string, other: string)
    requires '=' !in key && '=' !in other && OneLine(key) && OneLine(value)
    requires torn < Line(key, value)
    ensures Field(torn, other).Some? && other == key ==> Field(torn, other).value <= value
    ensures Field(torn, other).Some? && other != key ==> other < key
  {
    var line := key + "=" + value;
    if torn != [] {
      assert torn <= line;
      assert '\n' !in torn;
      UntilSplits(torn, '\n', []);
      if |torn| <= |key| {
        assert torn <= key;
        UntilSplits(torn, '=', []);
      } else {
        assert torn == key + "=" + torn[|key| + 1..];
        LineValue(key, torn[|key| + 1..], other);
      }
    }
  }

  lemma RenderedField(id: Identity, key: string)
    requires WellFormed(id) && '=' !in key
    ensures Field(Render(id), key) ==
      if key == "installed_at" then Some(id.installedAt)
      else if key == "sha256" then Some(id.sha256)
      else if key == "version" then Some(id.version)
      else if key == "package" then Some("skybeat-agent") else None
  {
    hide Field, Line;
    var last := Line("installed_at", id.installedAt);
    var third := Line("sha256", id.sha256) + last;
    var second := Line("version", id.version) + third;
    assert last + [] == last;
    NoFields(key);
    FieldOfLine("installed_at", id.installedAt, [], key);
    FieldOfLine("sha256", id.sha256, last, key);
    FieldOfLine("version", id.version, third, key);
    FieldOfLine("package", "skybeat-agent", second, key);
  }

  lemma NoFields(key: string)
    ensures Field([], key) == None
  {
  }

  /** The rendered record reads back as written. */
  lemma RenderedFields(id: Identity)
    requires WellFormed(id)
    ensures Field(Render(id), "version") == Some(id.version)
    ensures Field(Render(id), "sha256") == Some(id.sha256)
  {
    hide Field, Render;
    RenderedField(id, "version");
    RenderedField(id, "sha256");
  }

  lemma PrefixOfConcat(torn: string, first: string, rest: string)
    requires torn <= first + rest
    ensures |torn| < |first| ==> torn < first
    ensures |torn| >= |first| ==> torn == first + torn[|first|..] && torn[|first|..] <= rest
  {
    if |torn| >= |first| {
      assert torn[..|first|] == (first + rest)[..|first|] == first;
      assert torn[|first|..] == (first + rest)[|first|..|torn|] == rest[..|torn| - |first|];
    }
  }

  /** A torn record: the digest it shows is a prefix of the real one, and once the digest is
      whole the version is too. */
  lemma TornFields(id: Identity, torn: string)
    requires WellFormed(id) && torn <= Render(id)
    ensures Field(torn, "sha256").Some? ==> Field(torn, "sha256").value <= id.sha256
    ensures Field(torn, "sha256").Some? ==> Field(torn, "version") == Some(id.version)
  {
    var last := Line("installed_at", id.installedAt);
    var third := Line("sha256", id.sha256) + last;
    var second := Line("version", id.version) + third;
    var first := Line("package", "skybeat-agent");
    PrefixOfConcat(torn, first, second);
    if |torn| < |first| {
      FieldOfTornLine("package", "skybeat-agent", torn, "sha256");
    } else {
      var torn2 := torn[|first|..];
      FieldOfLine("package", "skybeat-agent", torn2, "sha256");
      FieldOfLine("package", "skybeat-agent", torn2, "version");
      TornAfterPackage(id, torn2);
    }
  }

  lemma TornAfterPackage(id: Identity, torn: string)
    requires WellFormed(id)
    requires torn <= Line("version", id.version) + (Line("sha256", id.sha256) + Line("installed_at", id.installedAt))
    ensures Field(torn, "sha256").Some? ==> Field(torn, "sha256").value <= id.sha256
    ensures Field(torn, "sha256").Some? ==> Field(torn, "version") == Some(id.version)
  {
    var last := Line("installed_at", id.installedAt);
    var third := Line("sha256", id.sha256) + last;
    var first := Line("version", id.version);
    PrefixOfConcat(torn, first, third);
    if |torn| < |first| {
      FieldOfTornLine("version", id.version, torn, "sha256");
    } else {
      var torn3 := torn[|first|..];
      FieldOfLine("version", id.version, torn3, "sha256");
      FieldOfLine("version", id.version, torn3, "version");
      TornAfterVersion(id, torn3);
    }
  }

  lemma TornAfterVersion(id: Identity, torn: string)
    requires WellFormed(id)
    requires torn <= Line("sha256", id.sha256) + Line("installed_at", id.installedAt)
    ensures Field(torn, "sha256").Some? ==> Field(torn, "sha256").value <= id.sha256
    ensures Field(torn, "version").None?
  {
    hide Field, Line;
    var last := Line("installed_at", id.installedAt);
    var first := Line("sha256", id.sha256);
    PrefixOfConcat(torn, first, last);
    if |torn| < |first| {
      FieldOfTornLine("sha256", id.sha256, torn, "sha256");
      FieldOfTornLine("sha256", id.sha256, torn, "version");
      NoPrefixes();
    } else {
      var torn4 := torn[|first|..];
      FieldOfLine("sha256", id.sha256, torn4, "sha256");
      FieldOfLine("sha256", id.sha256, torn4, "version");
      TornInstalledAt(id, torn4);
    }
  }

  lemma NoPrefixes()
    ensures !("version" < "sha256") && !("version" < "installed_at") && !("sha256" < "installed_at")
  {
    assert "version"[0] != "sha256"[0] && "version"[0] != "installed_at"[0] && "sha256"[0] != "installed_at"[0];
  }

  lemma TornInstalledAt(id: Identity, torn: string)
    requires WellFormed(id) && torn <= Line("installed_at", id.installedAt)
    ensures Field(torn, "sha256").None? && Field(torn, "version").None?
  {
    hide Field, Line;
    if torn == Line("installed_at", id.installedAt) {
      assert torn == Line("installed_at", id.installedAt) + [];
      FieldOfLine("installed_at", id.installedAt, [], "sha256");
      FieldOfLine("installed_at", id.installedAt, [], "version");
      NoFields("sha256");
      NoFields("version");
    } else {
      FieldOfTornLine("installed_at", id.installedAt, torn, "sha256");
      FieldOfTornLine("installed_at", id.installedAt, torn, "version");
      NoPrefixes();
    }
  }

  lemma ParsesLine(key: string, value: string, rest: string)
    requires '=' !in key && OneLine(key) && OneLine(value)
    ensures Parses(Line(key, value) + rest) <==> Parses(rest)
  {
    var line := key + "=" + value;
    assert Line(key, value) + rest == line + ['\n'] + rest;
    UntilSplits(line, '\n', rest);
    assert (Line(key, value) + rest)[|line| + 1..] == rest;
  }

  /** A rendered record can be split line by line. */
  lemma RenderedParses(id: Identity)
    requires WellFormed(id)
    ensures Parses(Render(id))
  {
    hide Parses, Line;
    var last := Line("installed_at", id.installedAt);
    var third := Line("sha256", id.sha256) + last;
    var second := Line("version", id.version) + third;
    assert last + [] == last;
    NothingParses();
    ParsesLine("installed_at", id.installedAt, []);
    ParsesLine("sha256", id.sha256, last);
    ParsesLine("version", id.version, third);
    ParsesLine("package", "skybeat-agent", second);
  }

  lemma NothingParses()
    ensures Parses([])
  {
  }
}
