/**
 * The HTTP client's response object: the status line must be exactly
 * three space-separated tokens with a numeric status code, and every
 * header line after the first must be exactly a name and a value around
 * ": ". Splitting on a delimiter string is modelled as cutting at every
 * occurrence, left to right, keeping empty tokens.
 */
module HttpResponse {
  import opened Wrappers
  import Numbers

  /** d occurs in s at position i. */
  predicate OccursAt(s: string, d: string, i: nat)
  {
    i + |d| <= |s| && s[i..i + |d|] == d
  }

  /** The first position where d occurs in s. */
  function Find(s: string, d: string): (r: Option<nat>)
    requires |d| > 0
    ensures r.Some? ==> OccursAt(s, d, r.value) && forall j :: 0 <= j < r.value ==> !OccursAt(s, d, j)
    ensures r.None? ==> forall j :: 0 <= j <= |s| ==> !OccursAt(s, d, j)
    decreases |s|
  {
    if |s| < |d| then None
    else if s[..|d|] == d then Some(0)
    else
      match Find(s[1..], d)
      case None =>
        assert forall j :: 1 <= j <= |s| ==> (OccursAt(s, d, j) <==> OccursAt(s[1..], d, j - 1));
        None
      case Some(i) =>
        assert forall j :: 1 <= j <= |s| ==> (OccursAt(s, d, j) <==> OccursAt(s[1..], d, j - 1));
        Some(i + 1)
  }

  /** The pieces of s between the occurrences of d, empty ones included. */
  function Split(s: string, d: string): (tokens: seq<string>)
    requires |d| > 0
    ensures |tokens| >= 1
    decreases |s|
  {
    match Find(s, d)
    case None => [s]
    case Some(i) => [s[..i]] + Split(s[i + |d|..], d)
  }

  /** The tokens joined back with d between them. */
  function JoinOn(tokens: seq<string>, d: string): string
    requires |tokens| >= 1
  {
    if |tokens| == 1 then tokens[0] else tokens[0] + d + JoinOn(tokens[1..], d)
  }

  /** Splitting loses nothing: joining the tokens with the delimiter gives the input back. */
  lemma {:induction false} SplitJoin(s: string, d: string)
    requires |d| > 0
    ensures JoinOn(Split(s, d), d) == s
    decreases |s|
  {
    match Find(s, d)
    case None =>
    case Some(i) =>
      var rest := s[i + |d|..];
      var toks := Split(s, d);
      assert toks == [s[..i]] + Split(rest, d);
      assert toks[1..] == Split(rest, d);
      SplitJoin(rest, d);
      assert JoinOn(toks, d) == s[..i] + d + JoinOn(Split(rest, d), d);
      assert s[i..i + |d|] == d;
      assert s == s[..i] + s[i..i + |d|] + rest;
  }

  /** No token contains the delimiter. */
  lemma {:induction false} SplitTokensFree(s: string, d: string)
    requires |d| > 0
    ensures forall t, j :: t in Split(s, d) && 0 <= j <= |t| ==> !OccursAt(t, d, j)
    decreases |s|
  {
    match Find(s, d)
    case None =>
    case Some(i) =>
      var rest := s[i + |d|..];
      SplitTokensFree(rest, d);
      forall j | 0 <= j <= i
        ensures !OccursAt(s[..i], d, j)
      {
        if OccursAt(s[..i], d, j) {
          assert s[..i][j..j + |d|] == s[j..j + |d|];
          assert OccursAt(s, d, j);
          assert false;
        }
      }
  }

  /** A token free of the one-character delimiter c, followed by c, is the first token. */
  lemma SplitFirstToken(t: string, c: char, rest: string)
    requires c !in t
    ensures Split(t + [c] + rest, [c]) == [t] + Split(rest, [c])
  {
    var s := t + [c] + rest;
    assert OccursAt(s, [c], |t|) by { assert s[|t|..|t| + 1] == [c]; }
    forall j | 0 <= j < |t| ensures !OccursAt(s, [c], j) {
      assert s[j..j + 1] == [t[j]];
    }
    assert Find(s, [c]) == Some(|t|);
    assert s[..|t|] == t && s[|t| + 1..] == rest;
  }

  /** A string free of the one-character delimiter is a single token. */
  lemma SplitLastToken(t: string, c: char)
    requires c !in t
    ensures Split(t, [c]) == [t]
  {
    forall j | 0 <= j <= |t| ensures !OccursAt(t, [c], j) {
      if j + 1 <= |t| {
        assert t[j..j + 1] == [t[j]];
      }
    }
  }

  /** A parsed response: the version, the status code and message, the headers, and the body. */
  datatype Response = Response(version: string, statusCode: int, statusMessage: string,
                               headers: map<string, string>, content: string)

  /**
   * The status line: exactly three tokens around single spaces, the
   * middle one a number stoi accepts; the first is the version and the
   * last the message. A wrong token count or a code with no number is the
   * invalid-status-line error; a number outside the int range makes stoi
   * throw std::out_of_range, which the parser does not catch, so it
   * escapes as itself ("out_of_range").
   */
  function StatusLine(line: string): (r: Result<(string, int, string), string>)
    ensures r.Ok? <==> |Split(line, " ")| == 3 && Numbers.Stoi(Split(line, " ")[1]).Some?
    ensures r.Ok? ==> r.value == (Split(line, " ")[0], Numbers.Stoi(Split(line, " ")[1]).value, Split(line, " ")[2])
    ensures r == Err("out_of_range") <==>
              |Split(line, " ")| == 3 && Numbers.ScanInt(Split(line, " ")[1]).Some? && Numbers.Stoi(Split(line, " ")[1]).None?
    ensures r.Err? && r != Err("out_of_range") ==> r.error == "Status message in server response headers is invalid: " + line
  {
    var tokens := Split(line, " ");
    if |tokens| != 3 then Err("Status message in server response headers is invalid: " + line)
    else
      match Numbers.Stoi(tokens[1])
      case None =>
        if Numbers.ScanInt(tokens[1]).Some? then Err("out_of_range")
        else Err("Status message in server response headers is invalid: " + line)
      case Some(code) => Ok((tokens[0], code, tokens[2]))
  }

  /** A reason phrase with a space in it makes four tokens, so such a status line is refused. */
  lemma ReasonWithSpaceRejected(version: string, code: string, w1: string, w2: string)
    requires ' ' !in version && ' ' !in code && ' ' !in w1 && ' ' !in w2
    ensures Split(version + " " + (code + " " + (w1 + " " + w2)), " ") == [version, code, w1, w2]
    ensures StatusLine(version + " " + (code + " " + (w1 + " " + w2))).Err?
  {
    SplitLastToken(w2, ' ');
    SplitFirstToken(w1, ' ', w2);
    SplitFirstToken(code, ' ', w1 + " " + w2);
    SplitFirstToken(version, ' ', code + " " + (w1 + " " + w2));
  }

  /** One header line: exactly a name and a value around ": ". */
  function HeaderField(line: string): (r: Option<(string, string)>)
    ensures r.Some? <==> |Split(line, ": ")| == 2
    ensures r.Some? ==> r.value == (Split(line, ": ")[0], Split(line, ": ")[1]) && line == r.value.0 + ": " + r.value.1
  {
    var tokens := Split(line, ": ");
    if |tokens| != 2 then None
    else
      SplitJoin(line, ": ");
      assert tokens[1..] == [tokens[1]];
      Some((tokens[0], tokens[1]))
  }

  /** The fields of all header lines, or None as soon as one line is not a field. */
  function Fields(lines: seq<string>): (r: Option<seq<(string, string)>>)
    ensures r.Some? <==> forall i :: 0 <= i < |lines| ==> HeaderField(lines[i]).Some?
    ensures r.Some? ==> |r.value| == |lines| && forall i :: 0 <= i < |lines| ==> r.value[i] == HeaderField(lines[i]).value
  {
    if lines == [] then Some([])
    else
      match HeaderField(lines[0])
      case None => None
      case Some(kv) =>
        match Fields(lines[1..])
        case None => None
        case Some(rest) => Some([kv] + rest)
  }

  /** Enters the fields in order, a later value for a name replacing an earlier one. */
  function Assign(kvs: seq<(string, string)>): map<string, string>
  {
    if kvs == [] then map[] else Assign(kvs[..|kvs| - 1])[kvs[|kvs| - 1].0 := kvs[|kvs| - 1].1]
  }

  /** The names entered are exactly those some field gives. */
  lemma {:induction false} FieldNames(kvs: seq<(string, string)>, name: string)
    ensures name in Assign(kvs) <==> exists i :: 0 <= i < |kvs| && kvs[i].0 == name
  {
    if kvs != [] {
      var init := kvs[..|kvs| - 1];
      FieldNames(init, name);
      assert forall j :: 0 <= j < |init| ==> kvs[j] == init[j];
    }
  }

  /** A field no later field renames gives its name's value. */
  lemma {:induction false} LastFieldWins(kvs: seq<(string, string)>, i: nat)
    requires i < |kvs|
    requires forall j :: i < j < |kvs| ==> kvs[j].0 != kvs[i].0
    ensures kvs[i].0 in Assign(kvs) && Assign(kvs)[kvs[i].0] == kvs[i].1
  {
    var init := kvs[..|kvs| - 1];
    if i < |kvs| - 1 {
      assert forall j :: i < j < |init| ==> init[j] == kvs[j];
      LastFieldWins(init, i);
    }
  }

  /** The header map: None when some line is not a field, else the fields entered in order. */
  function ReadHeaders(lines: seq<string>): (r: Option<map<string, string>>)
    ensures r.Some? <==> forall i :: 0 <= i < |lines| ==> HeaderField(lines[i]).Some?
  {
    match Fields(lines)
    case None => None
    case Some(kvs) => Some(Assign(kvs))
  }

  /** The headers named are exactly those some line names. */
  lemma HeaderNames(lines: seq<string>, name: string)
    requires ReadHeaders(lines).Some?
    ensures name in ReadHeaders(lines).value <==>
              exists i :: 0 <= i < |lines| && HeaderField(lines[i]).value.0 == name
  {
    var kvs := Fields(lines).value;
    FieldNames(kvs, name);
    assert forall i :: 0 <= i < |lines| ==> kvs[i] == HeaderField(lines[i]).value;
  }

  /** A header's value is that of the last line naming it. */
  lemma LastHeaderWins(lines: seq<string>, i: nat)
    requires ReadHeaders(lines).Some? && i < |lines|
    requires forall j :: i < j < |lines| ==> HeaderField(lines[j]).value.0 != HeaderField(lines[i]).value.0
    ensures var (name, value) := HeaderField(lines[i]).value;
            name in ReadHeaders(lines).value && ReadHeaders(lines).value[name] == value
  {
    LastFieldWins(Fields(lines).value, i);
  }

  /**
   * Builds a response: the status line is checked first; the header text
   * is cut into lines at "\r\n", the first line is skipped and every
   * later one must be a header field. Any failure is the error.
   */
  function Parse(statusLine: string, headerText: string, content: string): (r: Result<Response, string>)
    ensures StatusLine(statusLine).Err? ==> r.Err?
    ensures r.Ok? <==> StatusLine(statusLine).Ok? && ReadHeaders(Split(headerText, "\r\n")[1..]).Some?
    ensures r.Ok? ==>
              r.value == Response(StatusLine(statusLine).value.0, StatusLine(statusLine).value.1,
                                  StatusLine(statusLine).value.2, ReadHeaders(Split(headerText, "\r\n")[1..]).value, content)
  {
    match StatusLine(statusLine)
    case Err(e) => Err(e)
    case Ok(st) =>
      match ReadHeaders(Split(headerText, "\r\n")[1..])
      case None => Err("Server response contains invalid header")
      case Some(h) => Ok(Response(st.0, st.1, st.2, h, content))
  }
}
