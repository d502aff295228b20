/**
 * The configuration file: the INI reader (one line at a time), the
 * section/key lookups with a default, the data-file directory, and the
 * broker table built from the BrokerConfig_<id> sections.
 */
module Configs {
  import opened Wrappers
  import Text
  import Numbers
  import Status
  import FeedReplay

  /** Sections by name, each a map from key to value. */
  type Ini = map<string, map<string, string>>

  // ---------------------------------------------------------------------
  // Reading the file
  // ---------------------------------------------------------------------

  /** What one line of the file is, once trimmed. */
  datatype LineKind = Skipped | Header(name: string) | Assignment(key: string, value: string)

  /** The name in a header line: the text after '[' up to the first ']', or to the end when there is none. */
  function SectionName(line: string): (name: string)
    requires |line| >= 1
    ensures ']' !in name && |name| < |line| && name == line[1..][..|name|]
    ensures ']' in line[1..] ==> line[|name| + 1] == ']'
    ensures ']' !in line[1..] ==> name == line[1..]
  {
    var rest := line[1..];
    match Text.FirstIndex(rest, ']')
    case None => rest
    case Some(p) => rest[..p]
  }

  /** The trimmed text on each side of the first '='. */
  function SplitAssignment(line: string): (r: Option<(string, string)>)
    ensures r.None? <==> '=' !in line
    ensures r.Some? ==>
              exists p :: 0 <= p < |line| && line[p] == '=' && '=' !in line[..p]
                          && r.value == (Text.Trim(line[..p]), Text.Trim(line[p + 1..]))
  {
    match Text.FirstIndex(line, '=')
    case None => None
    case Some(p) =>
      var kv := (Text.Trim(line[..p]), Text.Trim(line[p + 1..]));
      assert 0 <= p < |line| && line[p] == '=' && '=' !in line[..p] && kv == (Text.Trim(line[..p]), Text.Trim(line[p + 1..]));
      Some(kv)
  }

  /**
   * A trimmed line that is empty or starts with ';' or '#' is skipped; one
   * starting with '[' names a section; otherwise it assigns the trimmed
   * text after the first '=' to the trimmed text before it, and a line
   * with no '=' is skipped.
   */
  function Classify(raw: string): (k: LineKind)
    ensures var line := Text.Trim(raw);
            k.Skipped? <==> line == [] || line[0] == ';' || line[0] == '#' || (line[0] != '[' && '=' !in line)
    ensures var line := Text.Trim(raw);
            k.Header? <==> line != [] && line[0] == '['
    ensures k.Header? ==> k.name == SectionName(Text.Trim(raw))
    ensures k.Assignment? ==> SplitAssignment(Text.Trim(raw)) == Some((k.key, k.value))
  {
    var line := Text.Trim(raw);
    if line == [] || line[0] == ';' || line[0] == '#' then Skipped
    else if line[0] == '[' then Header(SectionName(line))
    else
      match SplitAssignment(line)
      case None => Skipped
      case Some(kv) => Assignment(kv.0, kv.1)
  }

  /** The reader's state: the current section (empty before the first header) and what has been read. */
  datatype Reader = Reader(section: string, ini: Ini)

  /** Applies one classified line: a header switches the section, an assignment sets the key in the current section. */
  function Apply(st: Reader, k: LineKind): (r: Reader)
    ensures k.Skipped? ==> r == st
    ensures k.Header? ==> r == Reader(k.name, st.ini)
    ensures k.Assignment? ==>
              r.section == st.section && st.section in r.ini && k.key in r.ini[st.section]
              && r.ini[st.section][k.key] == k.value
    ensures k.Assignment? ==> r.ini.Keys == st.ini.Keys + {st.section}
    ensures k.Assignment? ==>
              forall s, key :: s in st.ini && key in st.ini[s] && (s, key) != (st.section, k.key) ==>
                s in r.ini && key in r.ini[s] && r.ini[s][key] == st.ini[s][key]
    ensures k.Assignment? ==>
              forall s, key :: s in r.ini && key in r.ini[s] && (s, key) != (st.section, k.key) ==>
                s in st.ini && key in st.ini[s] && st.ini[s][key] == r.ini[s][key]
  {
    match k
    case Skipped => st
    case Header(name) => Reader(name, st.ini)
    case Assignment(key, value) =>
      var dict := if st.section in st.ini then st.ini[st.section] else map[];
      st.(ini := st.ini[st.section := dict[key := value]])
  }

  /** Reads the lines in order, starting outside any section. */
  function Read(lines: seq<string>): (r: Reader)
  {
    if lines == [] then Reader("", map[]) else Apply(Read(lines[..|lines| - 1]), Classify(lines[|lines| - 1]))
  }

  /** The classified lines. */
  function Kinds(lines: seq<string>): (ks: seq<LineKind>)
    ensures |ks| == |lines| && forall i :: 0 <= i < |lines| ==> ks[i] == Classify(lines[i])
  {
    seq(|lines|, i requires 0 <= i < |lines| => Classify(lines[i]))
  }

  /** The section current after the classified lines: the last header's name, or "" when there is none. */
  function SectionAfter(ks: seq<LineKind>): string
  {
    if ks == [] then ""
    else if ks[|ks| - 1].Header? then ks[|ks| - 1].name
    else SectionAfter(ks[..|ks| - 1])
  }

  /** Line i assigns key while section sec is current. */
  predicate AssignsIn(ks: seq<LineKind>, i: nat, sec: string, key: string)
    requires i < |ks|
  {
    ks[i].Assignment? && ks[i].key == key && SectionAfter(ks[..i]) == sec
  }

  /** Whether a line assigns a key depends only on the lines up to it. */
  lemma AssignsInPrefix(ks: seq<LineKind>, m: nat, j: nat, sec: string, key: string)
    requires j < m <= |ks|
    ensures AssignsIn(ks[..m], j, sec, key) <==> AssignsIn(ks, j, sec, key)
  {
    assert ks[..m][..j] == ks[..j];
  }

  /** The last line that assigns key while sec is current, if any. */
  function LastAssignment(ks: seq<LineKind>, sec: string, key: string): (r: Option<nat>)
    ensures r.Some? ==> r.value < |ks| && AssignsIn(ks, r.value, sec, key)
    ensures r.Some? ==> forall j :: r.value < j < |ks| ==> !AssignsIn(ks, j, sec, key)
    ensures r.None? ==> forall j :: 0 <= j < |ks| ==> !AssignsIn(ks, j, sec, key)
    decreases |ks|
  {
    if ks == [] then None
    else
      var n := |ks| - 1;
      assert forall j :: 0 <= j < n ==> (AssignsIn(ks[..n], j, sec, key) <==> AssignsIn(ks, j, sec, key)) by {
        forall j | 0 <= j < n ensures AssignsIn(ks[..n], j, sec, key) <==> AssignsIn(ks, j, sec, key) {
          AssignsInPrefix(ks, n, j, sec, key);
        }
      }
      if AssignsIn(ks, n, sec, key) then Some(n) else LastAssignment(ks[..n], sec, key)
  }

  /** Reading classified lines in order, starting outside any section. */
  function ReadKinds(ks: seq<LineKind>): Reader
  {
    if ks == [] then Reader("", map[]) else Apply(ReadKinds(ks[..|ks| - 1]), ks[|ks| - 1])
  }

  lemma {:induction false} ReadIsReadKinds(lines: seq<string>)
    ensures Read(lines) == ReadKinds(Kinds(lines))
    decreases |lines|
  {
    if lines != [] {
      var n := |lines| - 1;
      ReadIsReadKinds(lines[..n]);
      assert Kinds(lines[..n]) == Kinds(lines)[..n];
    }
  }

  /** The current section is the last header's. */
  lemma {:induction false} ReadKindsSection(ks: seq<LineKind>)
    ensures ReadKinds(ks).section == SectionAfter(ks)
    decreases |ks|
  {
    if ks != [] {
      ReadKindsSection(ks[..|ks| - 1]);
    }
  }

  /** A key is read in a section exactly when some line assigned it there, and with the last such line's value. */
  lemma {:induction false} ReadKindsEntry(ks: seq<LineKind>, sec: string, key: string)
    ensures (sec in ReadKinds(ks).ini && key in ReadKinds(ks).ini[sec]) <==> LastAssignment(ks, sec, key).Some?
    ensures sec in ReadKinds(ks).ini && key in ReadKinds(ks).ini[sec] ==>
              ReadKinds(ks).ini[sec][key] == ks[LastAssignment(ks, sec, key).value].value
    decreases |ks|
  {
    if ks != [] {
      var n := |ks| - 1;
      ReadKindsEntry(ks[..n], sec, key);
      ReadKindsSection(ks[..n]);
    }
  }

  /** Every section read holds a key. */
  lemma {:induction false} ReadKindsNonEmpty(ks: seq<LineKind>)
    ensures forall sec :: sec in ReadKinds(ks).ini ==> ReadKinds(ks).ini[sec] != map[]
    decreases |ks|
  {
    if ks != [] {
      var n := |ks| - 1;
      ReadKindsNonEmpty(ks[..n]);
      var st := ReadKinds(ks[..n]);
      var k := ks[n];
      if k.Assignment? {
        var r := Apply(st, k);
        forall sec | sec in r.ini ensures r.ini[sec] != map[] {
          if sec != st.section {
            var key0 :| key0 in st.ini[sec];
            assert key0 in r.ini[sec];
          }
        }
      }
    }
  }

  /** Reading the lines, stated against the classified lines. */
  lemma ReadMeaning(lines: seq<string>)
    ensures forall sec, key :: (sec in Read(lines).ini && key in Read(lines).ini[sec]) <==> LastAssignment(Kinds(lines), sec, key).Some?
    ensures forall sec, key :: sec in Read(lines).ini && key in Read(lines).ini[sec] ==>
              Read(lines).ini[sec][key] == Classify(lines[LastAssignment(Kinds(lines), sec, key).value]).value
    ensures forall sec :: sec in Read(lines).ini ==> Read(lines).ini[sec] != map[]
  {
    ReadIsReadKinds(lines);
    ReadKindsNonEmpty(Kinds(lines));
    forall sec, key
      ensures (sec in Read(lines).ini && key in Read(lines).ini[sec]) <==> LastAssignment(Kinds(lines), sec, key).Some?
      ensures sec in Read(lines).ini && key in Read(lines).ini[sec] ==>
                Read(lines).ini[sec][key] == Classify(lines[LastAssignment(Kinds(lines), sec, key).value]).value
    {
      ReadKindsEntry(Kinds(lines), sec, key);
    }
  }

  /**
   * The parsed configuration of a file's lines: a key is set in a section
   * exactly when some line assigned it while that section was current, its
   * value is the last such line's, and every section read holds a key.
   */
  function ParseIni(lines: seq<string>): (cfg: Ini)
    ensures forall sec, key :: (sec in cfg && key in cfg[sec]) <==> LastAssignment(Kinds(lines), sec, key).Some?
    ensures forall sec, key :: sec in cfg && key in cfg[sec] ==>
              cfg[sec][key] == Classify(lines[LastAssignment(Kinds(lines), sec, key).value]).value
    ensures forall sec :: sec in cfg ==> cfg[sec] != map[]
  {
    ReadMeaning(lines);
    Read(lines).ini
  }

  /** Appending an assignment makes its value the one read for its key in the section then current. */
  lemma LaterAssignmentWins(lines: seq<string>, raw: string)
    requires Classify(raw).Assignment?
    ensures var sec := Read(lines).section;
            sec in ParseIni(lines + [raw]) && Classify(raw).key in ParseIni(lines + [raw])[sec]
            && ParseIni(lines + [raw])[sec][Classify(raw).key] == Classify(raw).value
  {
    assert (lines + [raw])[..|lines|] == lines;
  }

  /** Every key read comes from an assignment line of the file, and every section from a section that got one. */
  lemma KeysComeFromAssignments(lines: seq<string>, sec: string, key: string)
    requires sec in ParseIni(lines) && key in ParseIni(lines)[sec]
    ensures exists i :: 0 <= i < |lines| && Classify(lines[i]) == Assignment(key, ParseIni(lines)[sec][key])
  {
    var i := LastAssignment(Kinds(lines), sec, key).value;
    assert Kinds(lines)[i] == Classify(lines[i]);
  }

  /** A value read after one more line was already there unless that line assigned it. */
  lemma ApplyKeepsOthers(st: Reader, k: LineKind, sec: string, key: string)
    requires sec in Apply(st, k).ini && key in Apply(st, k).ini[sec]
    requires k != Assignment(key, Apply(st, k).ini[sec][key])
    ensures sec in st.ini && key in st.ini[sec] && st.ini[sec][key] == Apply(st, k).ini[sec][key]
  {
  }

  /** A section header on its own creates no section: only an assignment does. */
  lemma SectionsComeFromAssignments(lines: seq<string>, sec: string)
    requires sec in ParseIni(lines)
    ensures exists i :: 0 <= i < |lines| && Classify(lines[i]).Assignment?
  {
    var key :| key in ParseIni(lines)[sec];
    var i := LastAssignment(Kinds(lines), sec, key).value;
    assert Kinds(lines)[i] == Classify(lines[i]);
  }

  // ---------------------------------------------------------------------
  // Lookups with a default
  // ---------------------------------------------------------------------

  /**
   * The string lookup as the service performs it: with the section
   * present, the test is whether the section holds a key named like the
   * SECTION; if so the key itself is read and its absence throws
   * (std::out_of_range, the error); otherwise the default.
   */
  function LookupAsWritten(cfg: Ini, section: string, key: string, default: string): (r: Result<string, string>)
    ensures r.Err? <==> section in cfg && section in cfg[section] && key !in cfg[section]
    ensures section !in cfg || section !in cfg[section] ==> r == Ok(default)
    ensures section in cfg && section in cfg[section] && key in cfg[section] ==> r == Ok(cfg[section][key])
  {
    if section in cfg then
      var dict := cfg[section];
      if section in dict then (if key in dict then Ok(dict[key]) else Err("out_of_range")) else Ok(default)
    else Ok(default)
  }

  /** The lookup as evidently intended: the key's value when the section has the key, the default otherwise. */
  function Lookup(cfg: Ini, section: string, key: string, default: string): (r: string)
    ensures section in cfg && key in cfg[section] ==> r == cfg[section][key]
    ensures !(section in cfg && key in cfg[section]) ==> r == default
  {
    if section in cfg && key in cfg[section] then cfg[section][key] else default
  }

  /** The two lookups agree exactly when the section holds a key named like itself or does not hold the key. */
  lemma LookupAgreement(cfg: Ini, section: string, key: string, default: string)
    requires section in cfg && key in cfg[section]
    ensures LookupAsWritten(cfg, section, key, default) == Ok(Lookup(cfg, section, key, default)) <==>
              section in cfg[section] || cfg[section][key] == default
  {
  }

  /** A configured data-file name is ignored as written: the built-in default comes back. */
  lemma AsWrittenIgnoresConfiguredFile()
    ensures var cfg := map["DATACONFIG" := map["SecurityInfoFileName" := "Static2024.h5"]];
            LookupAsWritten(cfg, "DATACONFIG", "SecurityInfoFileName", "StaticInfo.h5") == Ok("StaticInfo.h5")
            && Lookup(cfg, "DATACONFIG", "SecurityInfoFileName", "StaticInfo.h5") == "Static2024.h5"
  {
  }

  /** The 32-bit integer lookup: get_int of the stored text as written, with the default as its fallback. */
  function LookupIntAsWritten(cfg: Ini, section: string, key: string, default: int): (r: Result<int, string>)
    ensures r.Err? <==> LookupAsWritten(cfg, section, key, "").Err?
    ensures section !in cfg || section !in cfg[section] ==> r == Ok(default)
    ensures section in cfg && section in cfg[section] && key in cfg[section] ==>
              r == Ok(Numbers.GetInt(cfg[section][key], default))
  {
    if section in cfg then
      var dict := cfg[section];
      if section in dict then (if key in dict then Ok(Numbers.GetInt(dict[key], default)) else Err("out_of_range"))
      else Ok(default)
    else Ok(default)
  }

  /** The integer lookup as evidently intended. */
  function LookupInt(cfg: Ini, section: string, key: string, default: int): (r: int)
    ensures section in cfg && key in cfg[section] ==> r == Numbers.GetInt(cfg[section][key], default)
    ensures !(section in cfg && key in cfg[section]) ==> r == default
    ensures Numbers.Stol(Lookup(cfg, section, key, "")).Some? && section in cfg && key in cfg[section] ==>
              r == Numbers.Wrap32(Numbers.Stol(Lookup(cfg, section, key, "")).value)
  {
    if section in cfg && key in cfg[section] then Numbers.GetInt(cfg[section][key], default) else default
  }

  /**
   * The floating-point lookup, as written; stod is a parameter that
   * answers None where it throws.
   */
  function LookupRealAsWritten(cfg: Ini, section: string, key: string, default: real, stod: string -> Option<real>)
    : (r: Result<real, string>)
    ensures r.Err? <==> LookupAsWritten(cfg, section, key, "").Err?
    ensures section !in cfg || section !in cfg[section] ==> r == Ok(default)
    ensures section in cfg && section in cfg[section] && key in cfg[section] ==>
              r == Ok(stod(cfg[section][key]).GetOr(default))
  {
    if section in cfg then
      var dict := cfg[section];
      if section in dict then (if key in dict then Ok(stod(dict[key]).GetOr(default)) else Err("out_of_range"))
      else Ok(default)
    else Ok(default)
  }

  /** The floating-point lookup as evidently intended. */
  function LookupReal(cfg: Ini, section: string, key: string, default: real, stod: string -> Option<real>): (r: real)
    ensures section in cfg && key in cfg[section] && stod(cfg[section][key]).Some? ==> r == stod(cfg[section][key]).value
    ensures !(section in cfg && key in cfg[section] && stod(cfg[section][key]).Some?) ==> r == default
  {
    if section in cfg && key in cfg[section] then stod(cfg[section][key]).GetOr(default) else default
  }

  // ---------------------------------------------------------------------
  // The data-file directory
  // ---------------------------------------------------------------------

  /**
   * The data directory: the DATACONFIG section's directory key (the
   * platform picks which), "D:/gmData/" when that key is absent, with a
   * '/' appended when it is non-empty and does not end in one. None when
   * there is no DATACONFIG section (the directory stays empty).
   */
  function DataDir(cfg: Ini, dirKey: string): (r: Option<string>)
    ensures r.None? <==> "DATACONFIG" !in cfg
    ensures r.Some? && dirKey !in cfg["DATACONFIG"] ==> r.value == "D:/gmData/"
    ensures r.Some? ==> r.value == [] || r.value[|r.value| - 1] == '/'
    ensures r.Some? && dirKey in cfg["DATACONFIG"] ==>
              0 <= |r.value| - |cfg["DATACONFIG"][dirKey]| <= 1
              && r.value[..|cfg["DATACONFIG"][dirKey]|] == cfg["DATACONFIG"][dirKey]
  {
    if "DATACONFIG" !in cfg then None
    else
      var d := if dirKey in cfg["DATACONFIG"] then cfg["DATACONFIG"][dirKey] else "D:/gmData/";
      if d != [] && d[|d| - 1] != '/' then Some(d + "/") else Some(d)
  }

  /** Normalising the directory twice changes nothing: a configured directory ending in '/' is kept as is. */
  lemma DataDirKeepsSlash(cfg: Ini, dirKey: string)
    requires "DATACONFIG" in cfg && dirKey in cfg["DATACONFIG"]
    requires cfg["DATACONFIG"][dirKey] != [] && cfg["DATACONFIG"][dirKey][|cfg["DATACONFIG"][dirKey]| - 1] == '/'
    ensures DataDir(cfg, dirKey) == Some(cfg["DATACONFIG"][dirKey])
    ensures DataDir(cfg["DATACONFIG" := cfg["DATACONFIG"][dirKey := DataDir(cfg, dirKey).value]], dirKey)
            == DataDir(cfg, dirKey)
  {
  }

  /** The keys naming the four data files under DATACONFIG, and their built-in names. */
  const FileKeys: seq<string> := ["SecurityInfoFileName", "TradeCalendarFileName", "DailyFileName", "MinuteFileName"]
  const FileDefaults: seq<string> := ["StaticInfo.h5", "TradeCalendar.h5", "DailyBar.h5", "MinuteBar.h5"]

  /**
   * The four data files, each read with the lookup as written: the data
   * directory followed by the built-in name unless DATACONFIG holds a key
   * named "DATACONFIG"; if it does, by the configured name, and a missing
   * name throws std::out_of_range out of the constructor (the error). None
   * when there is no DATACONFIG section.
   */
  function DataFiles(cfg: Ini, dirKey: string): (r: Option<Result<seq<string>, string>>)
    ensures r.None? <==> "DATACONFIG" !in cfg
    ensures r.Some? && r.value.Ok? ==> |r.value.value| == 4
    ensures r.Some? && "DATACONFIG" !in cfg["DATACONFIG"] ==>
              r.value.Ok? && forall i :: 0 <= i < 4 ==> r.value.value[i] == DataDir(cfg, dirKey).value + FileDefaults[i]
    ensures r.Some? && "DATACONFIG" in cfg["DATACONFIG"] ==>
              (r.value.Ok? <==> forall i :: 0 <= i < 4 ==> FileKeys[i] in cfg["DATACONFIG"])
    ensures r.Some? && r.value.Ok? && "DATACONFIG" in cfg["DATACONFIG"] ==>
              forall i :: 0 <= i < 4 ==> r.value.value[i] == DataDir(cfg, dirKey).value + cfg["DATACONFIG"][FileKeys[i]]
    ensures r.Some? && r.value.Ok? ==> forall i :: 0 <= i < 4 ==>
              |DataDir(cfg, dirKey).value| <= |r.value.value[i]|
              && r.value.value[i][..|DataDir(cfg, dirKey).value|] == DataDir(cfg, dirKey).value
  {
    match DataDir(cfg, dirKey)
    case None => None
    case Some(dir) =>
      var info := LookupAsWritten(cfg, "DATACONFIG", "SecurityInfoFileName", "StaticInfo.h5");
      var calendar := LookupAsWritten(cfg, "DATACONFIG", "TradeCalendarFileName", "TradeCalendar.h5");
      var daily := LookupAsWritten(cfg, "DATACONFIG", "DailyFileName", "DailyBar.h5");
      var minute := LookupAsWritten(cfg, "DATACONFIG", "MinuteFileName", "MinuteBar.h5");
      assert FileKeys[0] == "SecurityInfoFileName" && FileKeys[1] == "TradeCalendarFileName"
             && FileKeys[2] == "DailyFileName" && FileKeys[3] == "MinuteFileName";
      if info.Err? || calendar.Err? || daily.Err? || minute.Err? then Some(Err("out_of_range"))
      else Some(Ok([dir + info.value, dir + calendar.value, dir + daily.value, dir + minute.value]))
  }

  /**
   * As written, a configured security-info file name is ignored: the
   * security-info file is the default directory's built-in one.
   */
  lemma DataFilesIgnoreConfiguredName()
    ensures var cfg := map["DATACONFIG" := map["SecurityInfoFileName" := "Static2024.h5"]];
            var r := DataFiles(cfg, "H5FileDir");
            r.Some? && r.value.Ok? && r.value.value[0] == "D:/gmData/StaticInfo.h5"
  {
    var cfg := map["DATACONFIG" := map["SecurityInfoFileName" := "Static2024.h5"]];
    assert "DATACONFIG" !in cfg["DATACONFIG"];
    assert DataDir(cfg, "H5FileDir") == Some("D:/gmData/");
  }

  /** A strategy category's default parameters: the section named after the category, empty when absent. */
  function AlgoParamMap(cfg: Ini, categoryName: string): (r: map<string, string>)
    ensures categoryName in cfg ==> r == cfg[categoryName]
    ensures categoryName !in cfg ==> r == map[]
  {
    if categoryName in cfg then cfg[categoryName] else map[]
  }

  // ---------------------------------------------------------------------
  // Brokers
  // ---------------------------------------------------------------------

  /** The text after the first '_' of a section name, when it has one. */
  function AfterUnderscore(section: string): (r: Option<string>)
    ensures r.None? <==> '_' !in section
    ensures r.Some? ==> exists p :: 0 <= p < |section| && section[p] == '_' && '_' !in section[..p] && r.value == section[p + 1..]
  {
    match Text.FirstIndex(section, '_')
    case None => None
    case Some(p) => Some(section[p + 1..])
  }

  /**
   * The broker of a section: it must start with "BrokerConfig" and hold a
   * '_'; the text after the first '_' read by get_int (0 when unreadable)
   * must be nonzero, and is stored as an unsigned 64-bit id.
   */
  function BrokerOfSection(section: string): (r: Option<nat>)
    ensures r.Some? <==>
              Text.StartsWith(section, "BrokerConfig") && AfterUnderscore(section).Some?
              && Numbers.GetInt(AfterUnderscore(section).value, 0) != 0
    ensures r.Some? ==> 0 < r.value < FeedReplay.U64
    ensures r.Some? && Numbers.GetInt(AfterUnderscore(section).value, 0) > 0 ==>
              r.value == Numbers.GetInt(AfterUnderscore(section).value, 0)
    ensures r.Some? && Numbers.GetInt(AfterUnderscore(section).value, 0) < 0 ==>
              r.value == FeedReplay.U64 + Numbers.GetInt(AfterUnderscore(section).value, 0)
  {
    if Text.StartsWith(section, "BrokerConfig") && AfterUnderscore(section).Some? then
      var id := Numbers.GetInt(AfterUnderscore(section).value, 0);
      if id != 0 then
        assert -Numbers.Pow31 <= id < Numbers.Pow31;
        Some(if id > 0 then id else FeedReplay.U64 + id)
      else None
    else None
  }

  /**
   * The broker-table entries a section contributes, in the order its
   * (account, account-type name) pairs are visited; names the account
   * type parser rejects contribute nothing.
   */
  function SectionEntries(broker: nat, pairs: seq<(string, string)>, parseType: string -> Option<int>)
    : (r: seq<((int, string), nat)>)
    ensures forall e :: e in r ==> e.1 == broker
    ensures forall t: int, acct: string :: ((t, acct), broker) in r <==>
              exists j :: 0 <= j < |pairs| && pairs[j].0 == acct && parseType(pairs[j].1) == Some(t)
  {
    if pairs == [] then []
    else
      var init := SectionEntries(broker, pairs[..|pairs| - 1], parseType);
      var last := pairs[|pairs| - 1];
      assert forall j :: 0 <= j < |pairs| - 1 ==> pairs[..|pairs| - 1][j] == pairs[j];
      match parseType(last.1)
      case None => init
      case Some(t) => init + [((t, last.0), broker)]
  }

  /** Every (account type, account) the broker sections map, in the order the sections and their pairs are visited. */
  function BrokerEntries(sections: seq<(string, seq<(string, string)>)>, parseType: string -> Option<int>)
    : (r: seq<((int, string), nat)>)
  {
    if sections == [] then []
    else
      var init := BrokerEntries(sections[..|sections| - 1], parseType);
      var last := sections[|sections| - 1];
      match BrokerOfSection(last.0)
      case None => init
      case Some(b) => init + SectionEntries(b, last.1, parseType)
  }

  /** try_emplace over the entries in order: the first entry for a key is the one kept. */
  function FirstWins(entries: seq<((int, string), nat)>): (m: map<(int, string), nat>)
    ensures forall k :: k in m <==> exists e :: e in entries && e.0 == k
  {
    if entries == [] then map[]
    else
      var m := FirstWins(entries[..|entries| - 1]);
      var last := entries[|entries| - 1];
      assert entries == entries[..|entries| - 1] + [last];
      if last.0 in m then m else m[last.0 := last.1]
  }

  /** The value kept for a key is that of its first entry. */
  lemma {:induction false} FirstEntryKept(entries: seq<((int, string), nat)>, i: nat)
    requires i < |entries|
    requires forall j :: 0 <= j < i ==> entries[j].0 != entries[i].0
    ensures entries[i].0 in FirstWins(entries) && FirstWins(entries)[entries[i].0] == entries[i].1
  {
    var n := |entries|;
    var init := entries[..n - 1];
    if i < n - 1 {
      FirstEntryKept(init, i);
      assert init[i] == entries[i];
    }
  }

  /** The broker table of the parsed sections. */
  function BrokerTable(sections: seq<(string, seq<(string, string)>)>, parseType: string -> Option<int>)
    : (m: map<(int, string), nat>)
    ensures forall k :: k in m <==> exists e :: e in BrokerEntries(sections, parseType) && e.0 == k
  {
    var es := BrokerEntries(sections, parseType);
    FirstWins(es)
  }

  /** The broker of an account: the table's entry for its type and account, 0 when there is none. */
  function BrokerIdFromAcct(table: map<(int, string), nat>, acctType: int, acct: string): (r: nat)
    ensures (acctType, acct) in table ==> r == table[(acctType, acct)]
    ensures (acctType, acct) !in table ==> r == 0
  {
    if (acctType, acct) in table then table[(acctType, acct)] else 0
  }

  /** An account listed in no valid broker section has broker 0; a listed one has a nonzero broker. */
  lemma BrokerIdNonzeroIffListed(sections: seq<(string, seq<(string, string)>)>, parseType: string -> Option<int>,
                                 acctType: int, acct: string)
    ensures BrokerIdFromAcct(BrokerTable(sections, parseType), acctType, acct) != 0 <==>
              exists e :: e in BrokerEntries(sections, parseType) && e.0 == (acctType, acct)
  {
    var t := BrokerTable(sections, parseType);
    if (acctType, acct) in t {
      BrokersNonzero(sections, parseType);
      var es := BrokerEntries(sections, parseType);
      var k := (acctType, acct);
      FirstIndexOfKey(es, k);
    }
  }

  /** Every broker in the entries is nonzero. */
  lemma {:induction false} BrokersNonzero(sections: seq<(string, seq<(string, string)>)>, parseType: string -> Option<int>)
    ensures forall e :: e in BrokerEntries(sections, parseType) ==> e.1 > 0
  {
    if sections != [] {
      BrokersNonzero(sections[..|sections| - 1], parseType);
    }
  }

  /** The value the table keeps for a key is that of its first entry, which is one of the entries. */
  lemma FirstIndexOfKey(es: seq<((int, string), nat)>, k: (int, string))
    requires exists e :: e in es && e.0 == k
    ensures k in FirstWins(es) && (k, FirstWins(es)[k]) in es
  {
    var i := KeyIndex(es, k);
    FirstEntryKept(es, i);
  }

  /** The index of the first entry for key k. */
  function KeyIndex(es: seq<((int, string), nat)>, k: (int, string)): (i: nat)
    requires exists e :: e in es && e.0 == k
    ensures i < |es| && es[i].0 == k
    ensures forall j :: 0 <= j < i ==> es[j].0 != k
  {
    if es[0].0 == k then 0
    else
      var e :| e in es && e.0 == k;
      assert e in es[1..];
      1 + KeyIndex(es[1..], k)
  }
}
