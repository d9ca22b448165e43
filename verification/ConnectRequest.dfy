/**
 The egress proxy's request parser. Only authority-form CONNECT requests to port 443 are accepted (RFC 9110
 section 9.3.6, RFC 9112 section 3.2.3). The canonical text of an IPv6 literal is the standard library's, so
 every function takes it as `v6`: the canonical text of an address, or `None` for text that is not one.
 */
module ConnectRequest {
  import opened Prelude
  import opened Text

  type V6 = string -> Option<string>

  const HEADER_BYTES := 8192

  // ----- the destination -----------------------------------------------------------------------------

  predicate Forbidden(c: char) {
    c in "@/%?#\\ \t\r\n"
  }

  predicate Alnum(c: char) {
    'a' <= c <= 'z' || 'A' <= c <= 'Z' || '0' <= c <= '9'
  }

  predicate Label(s: string) {
    && 1 <= |s| <= 63
    && Alnum(s[0]) && Alnum(s[|s| - 1])
    && forall i | 0 <= i < |s| :: Alnum(s[i]) || s[i] == '-'
  }

  predicate HostName(host: string) {
    |host| <= 253 && forall i | 0 <= i < |Split(host, '.')| :: Label(Split(host, '.')[i])
  }

  predicate V6Char(c: char) {
    'a' <= c <= 'f' || 'A' <= c <= 'F' || '0' <= c <= '9' || c == ':'
  }

  // `\[([0-9a-fA-F:]+)\]:443`
  predicate V6Form(value: string) {
    && |value| > 6
    && value[0] == '[' && value[|value| - 5..] == "]:443"
    && forall i | 1 <= i < |value| - 5 :: V6Char(value[i])
  }

  /** The canonical host of an authority, or the status it is rejected with. The port is always 443. */
  function Authority(v6: V6, value: string): Result<string, int> {
    if value == "" || (exists i | 0 <= i < |value| :: Forbidden(value[i])) then Err(400)
    else if value[0] == '[' then
      if !V6Form(value) then Err(400)
      else if v6(value[1..|value| - 5]).None? then Err(400)
      else Ok(v6(value[1..|value| - 5]).value)
    else if Count(value, ':') != 1 then Err(400)
    else
      SplitSize(value, ':');
      var parts := Split(value, ':');
      if parts[1] != "443" then Err(403)
      else
        var host := StripDots(Lower(parts[0]));
        if HostName(host) then Ok(host) else Err(400)
  }

  function RenderName(host: string): string {
    host + ":443"
  }

  function RenderV6(text: string): string {
    "[" + text + "]:443"
  }

  predicate Plain(c: char) {
    Alnum(c) || c == '-' || c == '.'
  }

  lemma {:induction false} PlainParts(host: string)
    requires forall i | 0 <= i < |Split(host, '.')| ::
      forall k | 0 <= k < |Split(host, '.')[i]| :: Plain(Split(host, '.')[i][k])
    ensures forall k | 0 <= k < |host| :: Plain(host[k])
  {
    if host != "" {
      var p, rest := Split(host, '.'), Split(host[1..], '.');
      forall i | 0 <= i < |rest| ensures forall k | 0 <= k < |rest[i]| :: Plain(rest[i][k]) {
        if host[0] == '.' {
          assert p[i + 1] == rest[i];
        } else if i > 0 {
          assert p[i] == rest[i];
        } else {
          assert forall k | 0 <= k < |rest[0]| :: rest[0][k] == p[0][k + 1];
        }
      }
      PlainParts(host[1..]);
      assert host[0] != '.' ==> Plain(p[0][0]);
      assert forall k | 1 <= k < |host| :: host[k] == host[1..][k - 1];
    }
  }

  lemma HostNameIsPlain(host: string)
    requires HostName(host)
    ensures host != "" && Alnum(host[0]) && forall k | 0 <= k < |host| :: Plain(host[k])
  {
    var p := Split(host, '.');
    assert forall i | 0 <= i < |p| :: Label(p[i]);
    PlainParts(host);
    assert Label(p[0]);
  }

  lemma PlainIsClean(front: string)
    requires front != "" && Alnum(front[0]) && (forall k | 0 <= k < |front| :: Plain(front[k]))
    ensures front[0] != '[' && ':' !in front
    ensures forall k | 0 <= k < |RenderName(front)| :: !Forbidden(RenderName(front)[k])
  {
    assert forall k | 0 <= k < |RenderName(front)| :: Plain(RenderName(front)[k]) || RenderName(front)[k] == ':';
  }

  lemma TwoParts(front: string)
    requires ':' !in front
    ensures Split(RenderName(front), ':') == [front, "443"] && Count(RenderName(front), ':') == 1
  {
    assert RenderName(front) == front + [':'] + "443";
    SplitFirst(front, ':', "443");
    SplitNone("443", ':');
    SplitSize(RenderName(front), ':');
  }

  // What comes before the port parses by its lower case without trailing dots.
  lemma FrontParses(v6: V6, front: string)
    requires front != "" && Alnum(front[0]) && (forall k | 0 <= k < |front| :: Plain(front[k]))
    requires HostName(StripDots(Lower(front)))
    ensures Authority(v6, RenderName(front)) == Ok(StripDots(Lower(front)))
  {
    PlainIsClean(front);
    TwoParts(front);
  }

  /** `authority` is a canonicaliser: rendering the name it returns and parsing that gives the name back. */
  lemma NameIsCanonical(v6: V6, value: string)
    requires Authority(v6, value).Ok? && value[0] != '['
    ensures var host := Authority(v6, value).value; Authority(v6, RenderName(host)) == Ok(host)
  {
    SplitSize(value, ':');
    var lower := Lower(Split(value, ':')[0]);
    var host := StripDots(lower);
    assert forall k | 0 <= k < |host| :: host[k] == lower[k];
    assert Lower(host) == host;
    HostNameIsPlain(host);
    FrontParses(v6, host);
  }

  // What is relied on of the library: canonical text is address text, and is its own canonical text.
  ghost predicate Canonical(v6: V6) {
    forall s {:trigger v6(s)} :: v6(s).Some? ==>
      && v6(s).value != "" && v6(v6(s).value) == v6(s)
      && forall i | 0 <= i < |v6(s).value| :: V6Char(v6(s).value[i])
  }

  lemma AddressIsCanonical(v6: V6, value: string)
    requires Canonical(v6) && Authority(v6, value).Ok? && value[0] == '['
    ensures var host := Authority(v6, value).value; Authority(v6, RenderV6(host)) == Ok(host)
  {
    var text := value[1..|value| - 5];
    var host := v6(text).value;
    var again := RenderV6(host);
    assert again[1..|again| - 5] == host;
    assert again[|again| - 5..] == "]:443";
    assert forall k | 0 <= k < |again| :: !Forbidden(again[k]) by {
      assert forall k | 0 <= k < |again| :: V6Char(again[k]) || again[k] == '[' || again[k] == ']';
    }
  }

  // ----- host names, character by character ----------------------------------------------------------

  // Host names hold letters, digits, hyphens and dots; a dot has a neighbour that is no dot on both sides, and a hyphen
  // has a letter, a digit or a hyphen there.
  predicate Fits(t: string, i: nat)
    requires i < |t|
  {
    if t[i] == '.' then 0 < i < |t| - 1 && t[i + 1] != '.'
    else if t[i] == '-' then 0 < i < |t| - 1 && t[i - 1] != '.' && t[i + 1] != '.'
    else 'a' <= t[i] <= 'z' || 'A' <= t[i] <= 'Z' || '0' <= t[i] <= '9'
  }

  // One of the 64 characters from `i` on is a dot.
  predicate DotFrom(t: string, i: nat)
    requires i + 64 <= |t|
  {
    exists k | i <= k < i + 64 :: t[k] == '.'
  }

  ghost predicate Proper(t: string) {
    && t != "" && (forall i: nat | i < |t| :: Fits(t, i))
    && forall i: nat | i + 64 <= |t| :: DotFrom(t, i)
  }

  lemma LabelIsProper(l: string)
    requires '.' !in l
    ensures Label(l) <==> Proper(l)
  {
    if Proper(l) {
      assert Fits(l, 0) && Fits(l, |l| - 1);
      assert |l| >= 64 ==> DotFrom(l, 0);
      assert |l| <= 63;
      forall i | 0 <= i < |l| ensures Alnum(l[i]) || l[i] == '-' {
        assert Fits(l, i);
      }
    } else if Label(l) {
      forall i: nat | i < |l| ensures Fits(l, i) {
        assert l[i] in l;
      }
    }
  }

  // A label in front of a dot and the rest of a name
  lemma ProperParts(l: string, rest: string)
    requires '.' !in l && Proper(l + "." + rest)
    ensures Proper(l) && Proper(rest)
  {
    var t, n := l + "." + rest, |l| + 1;
    assert t[|l|] == '.' && Fits(t, |l|);
    forall i: nat | i < |l| ensures Fits(l, i) {
      assert Fits(t, i) && t[i] == l[i];
    }
    forall i: nat | i < |rest| ensures Fits(rest, i) {
      assert Fits(t, i + n) && t[i + n] == rest[i];
      assert i == 0 ==> t[i + n] != '.';
    }
    forall i: nat | i + 64 <= |l| ensures DotFrom(l, i) {
      assert DotFrom(t, i);
    }
    forall i: nat | i + 64 <= |rest| ensures DotFrom(rest, i) {
      assert DotFrom(t, i + n);
      var k :| i + n <= k < i + n + 64 && t[k] == '.';
      assert rest[k - n] == '.';
    }
  }

  lemma ProperWhole(l: string, rest: string)
    requires '.' !in l && Proper(l) && Proper(rest)
    ensures Proper(l + "." + rest)
  {
    var t, n := l + "." + rest, |l| + 1;
    assert Fits(l, 0) && Fits(l, |l| - 1) && Fits(rest, 0);
    LabelIsProper(l);
    forall i: nat | i < |t| ensures Fits(t, i) {
      if i < |l| {
        assert Fits(l, i) && t[i] == l[i];
      } else if i >= n {
        assert Fits(rest, i - n) && t[i] == rest[i - n];
      }
    }
    forall i: nat | i + 64 <= |t| ensures DotFrom(t, i) {
      if i <= |l| < i + 64 {
        assert t[|l|] == '.';
      } else {
        assert DotFrom(rest, i - n);
        var k :| i - n <= k < i - n + 64 && rest[k] == '.';
        assert t[k + n] == '.';
      }
    }
  }

  lemma {:induction false} JoinedIsProper(labels: seq<string>)
    requires |labels| >= 1 && forall i | 0 <= i < |labels| :: '.' !in labels[i]
    ensures Proper(Join(labels, ".")) <==> forall i | 0 <= i < |labels| :: Label(labels[i])
  {
    LabelIsProper(labels[0]);
    if |labels| > 1 {
      var rest := Join(labels[1..], ".");
      JoinedIsProper(labels[1..]);
      if Proper(Join(labels, ".")) {
        ProperParts(labels[0], rest);
        assert forall i | 1 <= i < |labels| :: labels[i] == labels[1..][i - 1];
      } else if Proper(labels[0]) && Proper(rest) {
        ProperWhole(labels[0], rest);
      }
    }
  }

  /**
   A host name is at most 253 letters, digits, hyphens and dots, with no dot at either end or next to another, no
   hyphen at either end or next to a dot, and a dot among any 64 characters in a row.
   */
  lemma HostNameIff(host: string)
    ensures HostName(host) <==> |host| <= 253 && Proper(host)
  {
    JoinOfSplit(host, '.');
    SplitHasNone(host, '.');
    JoinedIsProper(Split(host, '.'));
  }

  // A destination by name is a host name without capital letters.
  lemma DestinationIsLower(v6: V6, value: string)
    requires Authority(v6, value).Ok? && value[0] != '['
    ensures var host := Authority(v6, value).value;
      |host| <= 253 && Proper(host) && forall i | 0 <= i < |host| :: !('A' <= host[i] <= 'Z')
  {
    SplitSize(value, ':');
    var lower := Lower(Split(value, ':')[0]);
    var host := StripDots(lower);
    assert forall k | 0 <= k < |host| :: host[k] == lower[k];
    HostNameIff(host);
  }

  // An address literal holds hexadecimal digits and colons.
  lemma V6CharIs(c: char)
    ensures V6Char(c) <==> c in "0123456789abcdefABCDEF:"
  {}

  // ----- the grammar of destinations -----------------------------------------------------------------

  // Labels joined by dots
  ghost predicate DottedName(host: string) {
    |host| <= 253 && exists labels: seq<string> :: IsDotted(labels, host)
  }

  ghost predicate IsDotted(labels: seq<string>, host: string) {
    |labels| >= 1 && (forall i | 0 <= i < |labels| :: Label(labels[i])) && host == Join(labels, ".")
  }

  lemma HostNameIsDotted(host: string)
    ensures HostName(host) <==> DottedName(host)
  {
    if HostName(host) {
      JoinOfSplit(host, '.');
      assert IsDotted(Split(host, '.'), host);
    } else if labels: seq<string> :| IsDotted(labels, host) {
      forall i | 0 <= i < |labels| ensures '.' !in labels[i] {
        assert Label(labels[i]);
      }
      SplitOfJoin(labels, '.');
    }
  }

  predicate Dots(s: string) {
    forall i | 0 <= i < |s| :: s[i] == '.'
  }

  // A host name in any letter case, any number of trailing dots, and the port
  ghost predicate NameTarget(value: string, host: string) {
    exists name: string, dots: string :: IsNameTarget(value, host, name, dots)
  }

  ghost predicate IsNameTarget(value: string, host: string, name: string, dots: string) {
    DottedName(host) && Lower(name) == host && Dots(dots) && value == name + dots + ":443"
  }

  // A bracketed IPv6 literal, and the port
  ghost predicate AddressTarget(v6: V6, value: string, host: string) {
    exists text: string :: IsAddressTarget(v6, value, host, text)
  }

  ghost predicate IsAddressTarget(v6: V6, value: string, host: string, text: string) {
    && text != "" && (forall i | 0 <= i < |text| :: V6Char(text[i]))
    && value == "[" + text + "]:443" && v6(text) == Some(host)
  }

  ghost predicate Destination(v6: V6, value: string, host: string) {
    NameTarget(value, host) || AddressTarget(v6, value, host)
  }

  lemma LowerPlain(name: string)
    requires HostName(Lower(name))
    ensures name != "" && Alnum(name[0]) && forall k | 0 <= k < |name| :: Plain(name[k])
  {
    HostNameIsPlain(Lower(name));
    forall k | 0 <= k < |name| ensures Plain(name[k]) && (k == 0 ==> Alnum(name[k])) {
      assert Plain(Lower(name)[k]) && Lower(name)[k] == LowerChar(name[k]);
    }
  }

  lemma LowerAppend(a: string, b: string)
    ensures Lower(a + b) == Lower(a) + Lower(b)
  {}

  lemma {:induction false} StripAppended(host: string, dots: string)
    requires host != "" && host[|host| - 1] != '.' && Dots(dots)
    ensures StripDots(host + dots) == host
  {
    if dots == "" {
      assert host + dots == host;
    } else {
      assert (host + dots)[..|host + dots| - 1] == host + dots[..|dots| - 1];
      StripAppended(host, dots[..|dots| - 1]);
    }
  }

  lemma HostEndsInLabel(host: string)
    requires HostName(host)
    ensures host != "" && host[|host| - 1] != '.'
  {
    HostNameIsPlain(host);
    var p := Split(host, '.');
    JoinOfSplit(host, '.');
    assert Label(p[|p| - 1]);
    JoinEnds(p, ".");
  }

  lemma {:induction false} JoinEnds(parts: seq<string>, sep: string)
    requires |parts| >= 1 && parts[|parts| - 1] != ""
    ensures Join(parts, sep) != ""
    ensures var last, all := parts[|parts| - 1], Join(parts, sep); all[|all| - 1] == last[|last| - 1]
  {
    if |parts| > 1 {
      JoinEnds(parts[1..], sep);
    }
  }

  // The lower-cased dots are dots.
  lemma LowerDots(dots: string)
    ensures Dots(Lower(dots)) <==> Dots(dots)
    ensures Dots(dots) ==> Lower(dots) == dots
  {
    assert forall i | 0 <= i < |dots| :: Lower(dots)[i] == LowerChar(dots[i]);
  }

  lemma NameTargetParses(v6: V6, value: string, host: string, name: string, dots: string)
    requires IsNameTarget(value, host, name, dots)
    ensures Authority(v6, value) == Ok(host)
  {
    HostNameIsDotted(host);
    LowerPlain(name);
    LowerDots(dots);
    LowerAppend(name, dots);
    HostEndsInLabel(host);
    StripAppended(host, dots);
    FrontParses(v6, name + dots);
  }

  lemma ParsedNameIsTarget(v6: V6, value: string)
    requires Authority(v6, value).Ok? && value[0] != '['
    ensures NameTarget(value, Authority(v6, value).value)
  {
    SplitSize(value, ':');
    JoinOfSplit(value, ':');
    var front := Split(value, ':')[0];
    var lower := Lower(front);
    var host := StripDots(lower);
    var name, dots := front[..|host|], front[|host|..];
    assert value == front + ":443";
    assert front == name + dots;
    LowerAppend(name, dots);
    assert Lower(dots) == lower[|host|..];
    assert Dots(lower[|host|..]);
    LowerDots(dots);
    HostNameIsDotted(host);
    assert Lower(name) == host;
    assert IsNameTarget(value, host, name, dots);
  }

  lemma AddressTargetParses(v6: V6, value: string, host: string, text: string)
    requires IsAddressTarget(v6, value, host, text)
    ensures Authority(v6, value) == Ok(host) && value[0] == '['
  {
    assert value[1..|value| - 5] == text && value[|value| - 5..] == "]:443";
    assert forall i | 1 <= i < |value| - 5 :: value[i] == text[i - 1];
    assert forall k | 0 <= k < |value| :: V6Char(value[k]) || value[k] == '[' || value[k] == ']';
  }

  lemma ParsedAddressIsTarget(v6: V6, value: string)
    requires Authority(v6, value).Ok? && value[0] == '['
    ensures AddressTarget(v6, value, Authority(v6, value).value)
  {
    var text := value[1..|value| - 5];
    assert value == "[" + text + "]:443";
    assert forall i | 0 <= i < |text| :: text[i] == value[i + 1];
    assert IsAddressTarget(v6, value, Authority(v6, value).value, text);
  }

  /**
   `authority` accepts exactly host names in any letter case with trailing dots, or bracketed IPv6 literals, with
   port 443; the answer is the name in lower case without the dots, or the address's canonical text.
   */
  lemma AuthorityIffDestination(v6: V6, value: string, host: string)
    ensures Authority(v6, value) == Ok(host) <==> Destination(v6, value, host)
  {
    if Authority(v6, value) == Ok(host) {
      if value[0] == '[' {
        ParsedAddressIsTarget(v6, value);
      } else {
        ParsedNameIsTarget(v6, value);
      }
    } else if name: string, dots: string :| IsNameTarget(value, host, name, dots) {
      NameTargetParses(v6, value, host, name, dots);
    } else if text: string :| IsAddressTarget(v6, value, host, text) {
      AddressTargetParses(v6, value, host, text);
    }
  }

  // ----- the request ---------------------------------------------------------------------------------

  // A token (RFC 9110 section 5.6.2).
  predicate Token(s: string) {
    s != "" && forall i | 0 <= i < |s| :: Alnum(s[i]) || s[i] in "!#$%&'*+.^_`|~-"
  }

  predicate CleanValue(s: string) {
    forall i | 0 <= i < |s| :: (s[i] >= 32 as char || s[i] == '\t') && s[i] != 127 as char
  }

  // `line.partition(b":")`, when there is a colon
  function ColonAt(line: string): (r: Option<nat>)
    ensures r.Some? ==> r.value < |line| && line[r.value] == ':' && ':' !in line[..r.value]
    ensures r.None? ==> ':' !in line
  {
    if line == "" then None
    else if line[0] == ':' then Some(0)
    else
      var r := ColonAt(line[1..]);
      assert line == [line[0]] + line[1..];
      if r.None? then None else
        assert line[..r.value + 1] == [line[0]] + line[1..][..r.value];
        Some(r.value + 1)
  }

  // The rules for one header field, given the destination; the status it is rejected with, if it is.
  function FieldError(v6: V6, name: string, value: string, dest: string): Option<int> {
    if name == "transfer-encoding" then Some(400)
    else if name == "content-length" && Strip(value) != "0" then Some(400)
    else if name == "host" then
      if !Ascii(Strip(value)) then Some(400)
      else
        match Authority(v6, Strip(value))
        case Err(status) => Some(status)
        case Ok(host) => if host == dest then None else Some(400)
    else None
  }

  function LineError(v6: V6, line: string, seen: set<string>, dest: string): Option<int> {
    var colon := ColonAt(line);
    if colon.None? || !Token(line[..colon.value]) then Some(400)
    else if !CleanValue(line[colon.value + 1..]) then Some(400)
    else if Lower(line[..colon.value]) in seen then Some(400)
    else FieldError(v6, Lower(line[..colon.value]), line[colon.value + 1..], dest)
  }

  function NameOf(line: string): string {
    var colon := ColonAt(line);
    if colon.None? then "" else Lower(line[..colon.value])
  }

  function LinesError(v6: V6, lines: seq<string>, seen: set<string>, dest: string): Option<int> {
    if lines == [] then None
    else if LineError(v6, lines[0], seen, dest).Some? then LineError(v6, lines[0], seen, dest)
    else LinesError(v6, lines[1..], seen + {NameOf(lines[0])}, dest)
  }

  predicate Terminated(data: string) {
    |data| <= HEADER_BYTES && |data| >= 4 && data[|data| - 4..] == "\r\n\r\n"
  }

  function HeadError(line: string): Option<int> {
    var words := Split(line, ' ');
    if !Ascii(line) || |words| != 3 then Some(400)
    else if words[0] != "CONNECT" then Some(405)
    else if words[2] != "HTTP/1.0" && words[2] != "HTTP/1.1" then Some(400)
    else None
  }

  function Parse(v6: V6, data: string): Result<string, int> {
    if !Terminated(data) then Err(431)
    else
      var lines := Lines(data[..|data| - 4]);
      if HeadError(lines[0]).Some? then Err(HeadError(lines[0]).value)
      else
        match Authority(v6, Split(lines[0], ' ')[1])
        case Err(status) => Err(status)
        case Ok(dest) =>
          var error := LinesError(v6, lines[1..], {}, dest);
          if error.Some? then Err(error.value) else Ok(dest)
  }

  /** `parse_request`: one pass over the header lines, remembering the names seen. */
  method ParseRequest(v6: V6, data: string) returns (r: Result<string, int>)
    ensures r == Parse(v6, data)
  {
    if !Terminated(data) {
      return Err(431);
    }
    var lines := Lines(data[..|data| - 4]);
    var head := HeadError(lines[0]);
    if head.Some? {
      return Err(head.value);
    }
    r := Authority(v6, Split(lines[0], ' ')[1]);
    if r.Err? {
      return;
    }
    var seen: set<string> := {};
    for i := 1 to |lines|
      invariant r.Ok? && Authority(v6, Split(lines[0], ' ')[1]) == r
      invariant LinesError(v6, lines[i..], seen, r.value) == LinesError(v6, lines[1..], {}, r.value)
    {
      var colon := ColonAt(lines[i]);
      if colon.None? || !Token(lines[i][..colon.value]) || !CleanValue(lines[i][colon.value + 1..]) {
        return Err(400);
      }
      var name := Lower(lines[i][..colon.value]);
      if name in seen {
        return Err(400);
      }
      seen := seen + {name};
      var error := FieldError(v6, name, lines[i][colon.value + 1..], r.value);
      if error.Some? {
        return Err(error.value);
      }
    }
  }

  // ----- rejections -----------------------------------------------------------------------------------

  // A name and a port other than 443, separated by the only colon
  ghost predicate OtherPort(value: string) {
    && (forall i | 0 <= i < |value| :: value[i] !in "@/%?#\\ \t\r\n")
    && exists name: string, port: string :: IsOtherPort(value, name, port)
  }

  ghost predicate IsOtherPort(value: string, name: string, port: string) {
    value == name + ":" + port && ':' !in name && ':' !in port && port != "443" && value[0] != '['
  }

  /** What is no destination is forbidden (403) exactly if it asks for another port, and otherwise malformed (400). */
  lemma AuthorityStatus(v6: V6, value: string)
    ensures Authority(v6, value).Err? ==> Authority(v6, value).error == if OtherPort(value) then 403 else 400
    ensures OtherPort(value) ==> Authority(v6, value).Err?
  {
    SplitSize(value, ':');
    JoinOfSplit(value, ':');
    SplitHasNone(value, ':');
    if Authority(v6, value) == Err(403) {
      var parts := Split(value, ':');
      assert value == parts[0] + ":" + parts[1];
      assert IsOtherPort(value, parts[0], parts[1]);
    } else if OtherPort(value) {
      var name: string, port: string :| IsOtherPort(value, name, port);
      assert value == name + [':'] + port;
      SplitFirst(name, ':', port);
      SplitNone(port, ':');
    }
  }

  // The field names the destination again, at another port.
  ghost predicate HostAtOtherPort(line: string) {
    var f := FieldOf(line); Lower(f.name) == "host" && OtherPort(Strip(f.value))
  }

  lemma {:induction false} LinesStatus(v6: V6, lines: seq<string>, seen: set<string>, dest: string)
    ensures LinesError(v6, lines, seen, dest) in {None, Some(400), Some(403)}
    ensures LinesError(v6, lines, seen, dest) == Some(403) ==> exists l | l in lines :: HostAtOtherPort(l)
  {
    if lines != [] {
      LineStatus(v6, lines[0], seen, dest);
      LinesStatus(v6, lines[1..], seen + {NameOf(lines[0])}, dest);
    }
  }

  lemma LineStatus(v6: V6, line: string, seen: set<string>, dest: string)
    ensures LineError(v6, line, seen, dest) in {None, Some(400), Some(403)}
    ensures LineError(v6, line, seen, dest) == Some(403) ==> HostAtOtherPort(line)
    ensures ColonAt(line).None? || Lower(FieldOf(line).name) in seen ==> LineError(v6, line, seen, dest) == Some(400)
  {
    if ColonAt(line).Some? {
      AuthorityStatus(v6, Strip(FieldOf(line).value));
    }
  }

  // Three words, in ASCII
  predicate ThreeWords(line: string) {
    Ascii(line) && |Split(line, ' ')| == 3
  }

  /**
   How a request is rejected: 431 without a proper end within 8192 octets; else 405 for another method; else 403 only
   for another port than 443, in the target or in the Host field; else 400.
   */
  lemma ParseStatus(v6: V6, data: string)
    ensures Parse(v6, data) == Err(431) <==> |data| > 8192 || |data| < 4 || data[|data| - 4..] != "\r\n\r\n"
    ensures Parse(v6, data).Err? && Parse(v6, data).error != 431 ==>
      var lines := Lines(data[..|data| - 4]);
      var words := Split(lines[0], ' ');
      var status := Parse(v6, data).error;
      && status in {400, 403, 405}
      && (status == 405 <==> ThreeWords(lines[0]) && words[0] != "CONNECT")
      && (status == 403 ==>
            && ThreeWords(lines[0]) && words[0] == "CONNECT" && words[2] in {"HTTP/1.0", "HTTP/1.1"}
            && (OtherPort(words[1]) || exists l | l in lines[1..] :: HostAtOtherPort(l)))
      && (ThreeWords(lines[0]) && words[0] == "CONNECT" && words[2] in {"HTTP/1.0", "HTTP/1.1"} ==>
            OtherPort(words[1]) ==> status == 403)
  {
    if Terminated(data) {
      var lines := Lines(data[..|data| - 4]);
      if HeadError(lines[0]).None? {
        var target := Split(lines[0], ' ')[1];
        AuthorityStatus(v6, target);
        if Authority(v6, target).Ok? {
          LinesStatus(v6, lines[1..], {}, Authority(v6, target).value);
        }
      }
    }
  }

  // A token holds visible characters that are no delimiters (RFC 9110 section 5.6.2).
  lemma TokenIff(s: string)
    ensures Token(s) <==>
      s != "" && forall i | 0 <= i < |s| :: 33 as char <= s[i] <= 126 as char && s[i] !in "\"(),/:;<=>?@[\\]{}"
  {
    forall i | 0 <= i < |s|
      ensures Alnum(s[i]) || s[i] in "!#$%&'*+.^_`|~-" <==>
        33 as char <= s[i] <= 126 as char && s[i] !in "\"(),/:;<=>?@[\\]{}"
    {
      TokenChar(s[i]);
    }
  }

  // A field value holds no control characters but tabs.
  lemma ValueIff(s: string)
    ensures CleanValue(s) <==> forall i | 0 <= i < |s| :: s[i] == '\t' || ' ' <= s[i] <= '~' || s[i] >= '\U{80}'
    ensures Ascii(s) <==> forall i | 0 <= i < |s| :: s[i] <= '\U{7F}'
  {
    assert forall i | 0 <= i < |s| && s[i] != 127 as char :: s[i] <= '~' || s[i] >= '\U{80}';
  }

  lemma TokenChar(c: char)
    ensures Alnum(c) || c in "!#$%&'*+.^_`|~-" <==>
      33 as char <= c <= 126 as char && c !in "\"(),/:;<=>?@[\\]{}"
  {}

  // ----- the renderer, and the law between the two ----------------------------------------------------

  datatype Field = Field(name: string, value: string)

  datatype Request = Request(target: string, minor: char, fields: seq<Field>)

  function FieldLine(f: Field): string {
    f.name + ":" + f.value
  }

  function Version(minor: char): string {
    "HTTP/1." + [minor]
  }

  function HeadLine(q: Request): string {
    "CONNECT" + [' '] + q.target + [' '] + Version(q.minor)
  }

  function FieldLines(fields: seq<Field>): (lines: seq<string>)
    ensures |lines| == |fields|
    ensures forall i | 0 <= i < |fields| :: lines[i] == FieldLine(fields[i])
  {
    seq(|fields|, i requires 0 <= i < |fields| => FieldLine(fields[i]))
  }

  function Render(q: Request): string {
    Join([HeadLine(q)] + FieldLines(q.fields), "\r\n") + "\r\n\r\n"
  }

  // What the three fields with a meaning may say: no transfer coding, no content, and the destination once more
  ghost predicate FieldAllowed(v6: V6, name: string, value: string, dest: string) {
    && name != "transfer-encoding"
    && (name == "content-length" ==> Strip(value) == "0")
    && (name == "host" ==> Ascii(Strip(value)) && Destination(v6, Strip(value), dest))
  }

  lemma FieldAllowedIff(v6: V6, name: string, value: string, dest: string)
    ensures FieldError(v6, name, value, dest).None? <==> FieldAllowed(v6, name, value, dest)
  {
    AuthorityIffDestination(v6, Strip(value), dest);
  }

  // Names are tokens, distinct without regard to case; values are clean; the special fields agree with `dest`.
  ghost predicate FieldsOk(v6: V6, fields: seq<Field>, dest: string) {
    && (forall i | 0 <= i < |fields| ::
          && Token(fields[i].name) && CleanValue(fields[i].value)
          && FieldAllowed(v6, Lower(fields[i].name), fields[i].value, dest))
    && (forall i, k | 0 <= i < k < |fields| :: Lower(fields[i].name) != Lower(fields[k].name))
  }

  ghost predicate WellFormed(v6: V6, q: Request, dest: string) {
    && Destination(v6, q.target, dest) && Ascii(q.target)
    && (q.minor == '0' || q.minor == '1')
    && |Render(q)| <= HEADER_BYTES
    && FieldsOk(v6, q.fields, dest)
  }

  lemma {:induction false} FirstColon(name: string, value: string)
    requires ':' !in name
    ensures ColonAt(name + ":" + value) == Some(|name|)
  {
    if name != "" {
      assert (name + ":" + value)[1..] == name[1..] + ":" + value;
      FirstColon(name[1..], value);
    }
  }

  lemma ColonOfFieldLine(f: Field)
    requires Token(f.name)
    ensures ColonAt(FieldLine(f)) == Some(|f.name|)
    ensures FieldLine(f)[..|f.name|] == f.name && FieldLine(f)[|f.name| + 1..] == f.value
  {
    FirstColon(f.name, f.value);
  }

  // The header lines of well-formed fields pass exactly when no name was seen before.
  lemma {:induction false} FieldsPass(v6: V6, fields: seq<Field>, seen: set<string>, dest: string)
    requires FieldsOk(v6, fields, dest)
    requires forall i | 0 <= i < |fields| :: Lower(fields[i].name) !in seen
    ensures LinesError(v6, FieldLines(fields), seen, dest).None?
    decreases |fields|
  {
    if fields != [] {
      var f := fields[0];
      ColonOfFieldLine(f);
      FieldAllowedIff(v6, Lower(f.name), f.value, dest);
      assert FieldLines(fields)[0] == FieldLine(f);
      assert FieldLines(fields)[1..] == FieldLines(fields[1..]);
      FieldsPass(v6, fields[1..], seen + {Lower(f.name)}, dest);
    }
  }

  function FieldOf(line: string): Field {
    var colon := ColonAt(line);
    if colon.None? then Field("", line) else Field(line[..colon.value], line[colon.value + 1..])
  }

  function FieldsOf(lines: seq<string>): (fields: seq<Field>)
    ensures |fields| == |lines|
    ensures forall i | 0 <= i < |lines| :: fields[i] == FieldOf(lines[i])
  {
    seq(|lines|, i requires 0 <= i < |lines| => FieldOf(lines[i]))
  }

  lemma {:induction false} PassedLinesAreFields(v6: V6, lines: seq<string>, seen: set<string>, dest: string)
    requires LinesError(v6, lines, seen, dest).None?
    ensures FieldsOk(v6, FieldsOf(lines), dest)
    ensures FieldLines(FieldsOf(lines)) == lines
    ensures forall i | 0 <= i < |lines| :: Lower(FieldOf(lines[i]).name) !in seen
    decreases |lines|
  {
    if lines != [] {
      var colon := ColonAt(lines[0]);
      assert lines[0] == lines[0][..colon.value] + ":" + lines[0][colon.value + 1..];
      FieldAllowedIff(v6, NameOf(lines[0]), lines[0][colon.value + 1..], dest);
      PassedLinesAreFields(v6, lines[1..], seen + {NameOf(lines[0])}, dest);
      var fields := FieldsOf(lines);
      assert fields[1..] == FieldsOf(lines[1..]);
      assert forall i | 1 <= i < |lines| :: fields[i] == fields[1..][i - 1];
    }
  }

  lemma HeadLineIsAscii(q: Request)
    requires Ascii(q.target) && (q.minor == '0' || q.minor == '1')
    ensures Ascii(HeadLine(q))
  {
    assert Ascii("CONNECT" + [' ']) && Ascii([' '] + Version(q.minor));
  }

  lemma HeadSplits(q: Request)
    requires ' ' !in q.target && (q.minor == '0' || q.minor == '1')
    ensures Split(HeadLine(q), ' ') == ["CONNECT", q.target, Version(q.minor)]
  {
    var version := Version(q.minor);
    assert HeadLine(q) == "CONNECT" + [' '] + (q.target + [' '] + version);
    SplitFirst("CONNECT", ' ', q.target + [' '] + version);
    SplitFirst(q.target, ' ', version);
    SplitNone(version, ' ');
  }

  lemma HeadPasses(q: Request)
    requires ' ' !in q.target && Ascii(q.target) && (q.minor == '0' || q.minor == '1')
    ensures HeadError(HeadLine(q)).None?
    ensures |Split(HeadLine(q), ' ')| == 3 && Split(HeadLine(q), ' ')[1] == q.target
  {
    HeadSplits(q);
    HeadLineIsAscii(q);
    assert Version('0') == "HTTP/1.0" && Version('1') == "HTTP/1.1";
  }

  lemma TargetIsPlain(v6: V6, q: Request)
    requires Authority(v6, q.target).Ok?
    ensures ' ' !in q.target && '\r' !in q.target
  {
    assert forall i | 0 <= i < |q.target| :: !Forbidden(q.target[i]);
    assert Forbidden(' ') && Forbidden('\r');
  }

  lemma HeadLineIsOneLine(q: Request)
    requires '\r' !in q.target && (q.minor == '0' || q.minor == '1')
    ensures '\r' !in HeadLine(q)
  {
    assert '\r' !in Version(q.minor);
    assert '\r' !in "CONNECT" + [' '] + q.target;
  }

  lemma FieldLineIsOneLine(f: Field)
    requires Token(f.name) && CleanValue(f.value)
    ensures '\r' !in FieldLine(f)
  {
    assert '\r' !in f.name && '\r' !in f.value;
  }

  // Rendered lines hold no carriage return, so the rendered text splits back into exactly these lines.
  lemma RenderedLines(v6: V6, q: Request, dest: string)
    requires WellFormed(v6, q, dest)
    ensures Lines(Join([HeadLine(q)] + FieldLines(q.fields), "\r\n")) == [HeadLine(q)] + FieldLines(q.fields)
  {
    var lines := [HeadLine(q)] + FieldLines(q.fields);
    AuthorityIffDestination(v6, q.target, dest);
    TargetIsPlain(v6, q);
    HeadLineIsOneLine(q);
    forall i | 0 <= i < |lines| ensures '\r' !in lines[i] {
      if i > 0 {
        FieldLineIsOneLine(q.fields[i - 1]);
      }
    }
    LinesOfJoin(lines);
  }

  lemma RenderingParses(v6: V6, q: Request, dest: string)
    requires WellFormed(v6, q, dest)
    ensures Parse(v6, Render(q)) == Ok(dest)
  {
    var data := Render(q);
    var lines := [HeadLine(q)] + FieldLines(q.fields);
    var body := Join(lines, "\r\n");
    assert data[..|data| - 4] == body && data[|data| - 4..] == "\r\n\r\n";
    AuthorityIffDestination(v6, q.target, dest);
    RenderedLines(v6, q, dest);
    TargetIsPlain(v6, q);
    HeadPasses(q);
    assert lines[1..] == FieldLines(q.fields);
    FieldsPass(v6, q.fields, {}, dest);
  }

  function RequestOf(lines: seq<string>): Request
    requires |lines| >= 1 && HeadError(lines[0]).None?
  {
    var words := Split(lines[0], ' ');
    Request(words[1], if words[2] == "HTTP/1.0" then '0' else '1', FieldsOf(lines[1..]))
  }

  lemma HeadOfRequest(line: string, fields: seq<Field>)
    requires HeadError(line).None?
    ensures var words := Split(line, ' ');
      var q := Request(words[1], if words[2] == "HTTP/1.0" then '0' else '1', fields);
      HeadLine(q) == line && Ascii(q.target)
  {
    SplitThree(line, ' ');
    var words := Split(line, ' ');
    assert Version('0') == "HTTP/1.0" && Version('1') == "HTTP/1.1";
    AsciiParts("CONNECT" + [' '], words[1], [' '] + words[2]);
    assert line == "CONNECT" + [' '] + words[1] + ([' '] + words[2]);
  }

  lemma AsciiParts(a: string, b: string, c: string)
    ensures Ascii(a + b + c) ==> Ascii(b)
  {
    assert forall i | 0 <= i < |b| :: b[i] == (a + b + c)[|a| + i];
  }

  lemma ParsedIsRendering(v6: V6, data: string, dest: string)
    requires Parse(v6, data) == Ok(dest)
    ensures var q := RequestOf(Lines(data[..|data| - 4])); WellFormed(v6, q, dest) && Render(q) == data
  {
    var body := data[..|data| - 4];
    var lines := Lines(body);
    var q := RequestOf(lines);
    HeadOfRequest(lines[0], FieldsOf(lines[1..]));
    AuthorityIffDestination(v6, q.target, dest);
    PassedLinesAreFields(v6, lines[1..], {}, dest);
    assert [HeadLine(q)] + FieldLines(q.fields) == lines;
    JoinOfLines(body);
    assert data == body + "\r\n\r\n";
  }

  /**
   The parser accepts, with a destination, exactly the renderings of well-formed CONNECT requests for that
   destination.
   */
  lemma ParsesExactlyRenderings(v6: V6, data: string, dest: string)
    ensures Parse(v6, data) == Ok(dest) <==> exists q :: WellFormed(v6, q, dest) && Render(q) == data
  {
    if Parse(v6, data) == Ok(dest) {
      ParsedIsRendering(v6, data, dest);
    } else if q :| WellFormed(v6, q, dest) && Render(q) == data {
      RenderingParses(v6, q, dest);
    }
  }
}
