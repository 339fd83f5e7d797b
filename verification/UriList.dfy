/** File lists on the clipboard: paths printed as `file:` URIs and read back.
    Text is its UTF-8 bytes. */
module UriLists {
  import opened Common
  import opened Utf8

  const LF: byte := 10
  const CR: byte := 13
  const HASH: byte := 35
  const PERCENT: byte := 37
  const PLUS: byte := 43
  const SLASH: byte := 47

  /** `file://`, `copy` and `localhost`. */
  const FILE: Bytes := [102, 105, 108, 101, 58, 47, 47]
  const COPY: Bytes := [99, 111, 112, 121]
  const LOCALHOST: Bytes := [108, 111, 99, 97, 108, 104, 111, 115, 116]

  // ---- Lines ----

  function IndexOf(s: Bytes, b: byte): (n: nat)
    ensures n <= |s| && (n < |s| ==> s[n] == b)
  {
    if s == [] || s[0] == b then 0 else 1 + IndexOf(s[1..], b)
  }

  function StripCr(s: Bytes): Bytes {
    if s != [] && s[|s| - 1] == CR then s[..|s| - 1] else s
  }

  /** The lines, without their LF or CR LF. */
  function Lines(s: Bytes): seq<Bytes> {
    if s == [] then []
    else
      var n := IndexOf(s, LF);
      if n == |s| then [s] else [StripCr(s[..n])] + Lines(s[n + 1..])
  }

  // ---- Percent coding ----

  predicate IsAlnum(b: byte) { 48 <= b <= 57 || 65 <= b <= 90 || 97 <= b <= 122 }

  /** Bytes that stand for themselves: letters, digits and
      `/-._~!$&'()*+,;=:@`. */
  predicate Keeps(b: byte) {
    || IsAlnum(b)
    || b == 33 || b == 36 || 38 <= b <= 47 || b == 58 || b == 59 || b == 61 || b == 64 || b == 95 || b == 126
  }

  function HexOf(n: nat): byte
    requires n < 16
  {
    if n < 10 then 48 + n else 55 + n
  }

  function EncodedByte(b: byte): Bytes {
    if Keeps(b) then [b] else [PERCENT, HexOf(b / 16), HexOf(b % 16)]
  }

  function Encoded(p: Bytes): Bytes {
    if p == [] then [] else EncodedByte(p[0]) + Encoded(p[1..])
  }

  function Digit(b: byte): Option<nat> {
    if 48 <= b <= 57 then Some(b - 48)
    else if 65 <= b <= 70 then Some(b - 55)
    else if 97 <= b <= 102 then Some(b - 87)
    else None
  }

  /** Two bytes as a number in base 16, as the standard library reads one: a
      sign in front is taken. */
  function FromHex(a: byte, b: byte): (r: Option<byte>)
    ensures r.Some? <==> Digit(b).Some? && (Digit(a).Some? || a == PLUS)
  {
    if Digit(b) == None then None
    else if a == PLUS then Some(Digit(b).value)
    else if Digit(a) == None then None
    else Some(16 * Digit(a).value + Digit(b).value)
  }

  function Decoded(s: Bytes): Option<Bytes> {
    if s == [] then Some([])
    else if s[0] == PERCENT then
      if |s| < 3 || FromHex(s[1], s[2]) == None then None
      else match Decoded(s[3..]) { case None => None case Some(r) => Some([FromHex(s[1], s[2]).value] + r) }
    else match Decoded(s[1..]) { case None => None case Some(r) => Some([s[0]] + r) }
  }

  function PercentDecoded(s: Bytes): Option<Bytes> {
    match Decoded(s) { case None => None case Some(r) => if ValidUtf8(r) then Some(r) else None }
  }

  /** Every path comes back, whatever its bytes. */
  lemma {:induction false} DecodingUndoesEncoding(p: Bytes)
    ensures Decoded(Encoded(p)) == Some(p)
  {
    if p != [] {
      DecodingUndoesEncoding(p[1..]);
      var s := Encoded(p);
      if Keeps(p[0]) {
        assert s[1..] == Encoded(p[1..]);
      } else {
        assert s[3..] == Encoded(p[1..]);
        assert 16 * (p[0] / 16) + p[0] % 16 == p[0];
      }
      assert p == [p[0]] + p[1..];
    }
  }

  /** Graphic ASCII. */
  predicate Plain(s: Bytes) {
    forall b | b in s :: 33 <= b <= 126
  }

  /** Encoded text is graphic ASCII without `#`: no line break, no white
      space. */
  lemma {:induction false} EncodedIsPlain(p: Bytes)
    ensures Plain(Encoded(p)) && HASH !in Encoded(p)
  {
    if p != [] {
      EncodedIsPlain(p[1..]);
    }
  }

  method PercentDecode(s: Bytes) returns (r: Option<Bytes>)
    ensures r == PercentDecoded(s)
  {
    var out: Bytes := [];
    var i := 0;
    assert s[0..] == s;
    assert Decoded(s).Some? ==> [] + Decoded(s).value == Decoded(s).value;
    while i < |s|
      invariant i <= |s|
      invariant Decoded(s) == match Decoded(s[i..]) { case None => None case Some(rest) => Some(out + rest) }
    {
      ghost var here := s[i..];
      if s[i] == PERCENT {
        if |s| - i < 3 {
          return None;
        }
        assert here[3..] == s[i + 3..];
        var v := FromHex(s[i + 1], s[i + 2]);
        if v == None {
          return None;
        }
        ghost var before := out;
        out := out + [v.value];
        i := i + 3;
        PrefixGrows(before, v.value, Decoded(s[i..]));
      } else {
        assert here[1..] == s[i + 1..];
        ghost var before := out;
        out := out + [s[i]];
        i := i + 1;
        PrefixGrows(before, s[i - 1], Decoded(s[i..]));
      }
    }
    assert out + [] == out;
    return if ValidUtf8(out) then Some(out) else None;
  }

  lemma {:induction false} PrefixGrows(a: Bytes, b: byte, rest: Option<Bytes>)
    ensures rest.Some? ==> a + ([b] + rest.value) == (a + [b]) + rest.value
  {
  }

  method PercentEncodePath(p: Bytes) returns (s: Bytes)
    ensures s == Encoded(p)
  {
    s := [];
    for i := 0 to |p|
      invariant s == Encoded(p[..i])
    {
      EncodedAppend(p[..i], p[i]);
      assert p[..i + 1] == p[..i] + [p[i]];
      if Keeps(p[i]) {
        s := s + [p[i]];
      } else {
        s := s + [PERCENT, HexOf(p[i] / 16), HexOf(p[i] % 16)];
      }
    }
    assert p[..|p|] == p;
  }

  lemma {:induction false} EncodedAppend(p: Bytes, b: byte)
    ensures Encoded(p + [b]) == Encoded(p) + EncodedByte(b)
  {
    if p == [] {
      assert p + [b] == [b] && [b][1..] == [];
      assert Encoded([b]) == EncodedByte(b) + Encoded([]);
    } else {
      assert (p + [b])[1..] == p[1..] + [b];
      EncodedAppend(p[1..], b);
    }
  }

  // ---- URIs and lists ----

  /** The encoded path of a `file:` URI on this machine. */
  function LocalPart(uri: Bytes): Option<Bytes> {
    if !(FILE <= uri) then None
    else
      var rest := uri[7..];
      var slash := IndexOf(rest, SLASH);
      if slash == |rest| || !(rest[..slash] == [] || rest[..slash] == LOCALHOST) then None
      else Some(rest[slash..])
  }

  function WithoutNul(p: Option<Bytes>): Option<Bytes> {
    if p.Some? && 0 in p.value then None else p
  }

  /** The path of a `file:` URI on this machine. */
  function FilePath(uri: Bytes): Option<Bytes> {
    match LocalPart(uri) { case None => None case Some(t) => WithoutNul(PercentDecoded(t)) }
  }

  function PathOfLine(line: Bytes): seq<Bytes> {
    var l := Trim(line);
    if l == [] || l[0] == HASH || FilePath(l) == None then [] else [FilePath(l).value]
  }

  function PathsOf(lines: seq<Bytes>): seq<Bytes> {
    if lines == [] then [] else PathOfLine(lines[0]) + PathsOf(lines[1..])
  }

  function ParseUriList(body: Bytes): seq<Bytes> { PathsOf(Lines(body)) }

  function UriOf(path: Bytes): Bytes { FILE + Encoded(path) }

  function UriListOf(paths: seq<Bytes>): Bytes {
    if paths == [] then [] else UriOf(paths[0]) + [CR, LF] + UriListOf(paths[1..])
  }

  /** The lines behind the verb. */
  function GnomeLines(paths: seq<Bytes>): Bytes {
    if paths == [] then [] else [LF] + UriOf(paths[0]) + GnomeLines(paths[1..])
  }

  function GnomeCopiedFilesOf(paths: seq<Bytes>): Bytes { COPY + GnomeLines(paths) }

  function UrisOf(paths: seq<Bytes>): seq<Bytes> {
    if paths == [] then [] else [UriOf(paths[0])] + UrisOf(paths[1..])
  }

  /** What reading one printed path gives: nothing, or one path. */
  function Echo(p: Bytes): seq<Bytes> { PathOfLine(UriOf(p)) }

  function Echoes(paths: seq<Bytes>): seq<Bytes> {
    if paths == [] then [] else Echo(paths[0]) + Echoes(paths[1..])
  }

  /** A local path: absolute, without NUL. */
  predicate Local(p: Bytes) {
    p != [] && p[0] == SLASH && 0 !in p
  }

  lemma {:induction false} IndexOfIsTheFirst(s: Bytes, b: byte)
    ensures forall i | 0 <= i < IndexOf(s, b) :: s[i] != b
  {
    if s != [] && s[0] != b {
      IndexOfIsTheFirst(s[1..], b);
    }
  }

  lemma {:induction false} IndexOfAt(a: Bytes, b: byte, rest: Bytes)
    requires b !in a
    ensures IndexOf(a + [b] + rest, b) == |a| && IndexOf(a, b) == |a|
  {
    if a == [] {
      assert a + [b] + rest == [b] + rest;
    } else {
      assert (a + [b] + rest)[1..] == a[1..] + [b] + rest;
      IndexOfAt(a[1..], b, rest);
    }
  }

  lemma {:induction false} UriIsPlain(p: Bytes)
    ensures Plain(UriOf(p))
    ensures LF !in UriOf(p) && UriOf(p) != [] && UriOf(p)[0] != HASH
  {
    EncodedIsPlain(p);
    assert Plain(FILE);
  }

  lemma {:induction false} PlainIsTrimmed(s: Bytes)
    requires Plain(s)
    ensures Trim(s) == s
  {
    if s != [] {
      assert s[0] in s && s[|s| - 1] in s;
    }
  }

  lemma {:induction false} LinesOfCrLf(line: Bytes, rest: Bytes)
    requires LF !in line
    ensures Lines(line + [CR, LF] + rest) == [line] + Lines(rest)
  {
    var s := line + [CR, LF] + rest;
    assert s == (line + [CR]) + [LF] + rest;
    IndexOfAt(line + [CR], LF, rest);
    assert s[..|line| + 1] == line + [CR];
    assert s[|line| + 2..] == rest;
    assert StripCr(line + [CR]) == line;
  }

  lemma {:induction false} LinesOfLf(line: Bytes, rest: Bytes)
    requires LF !in line && (line != [] ==> line[|line| - 1] != CR)
    ensures Lines(line + [LF] + rest) == [line] + Lines(rest)
  {
    var s := line + [LF] + rest;
    IndexOfAt(line, LF, rest);
    assert s[..|line|] == line && s[|line| + 1..] == rest;
  }

  lemma {:induction false} LinesOfUriList(paths: seq<Bytes>)
    ensures Lines(UriListOf(paths)) == UrisOf(paths)
  {
    if paths != [] {
      UriIsPlain(paths[0]);
      LinesOfCrLf(UriOf(paths[0]), UriListOf(paths[1..]));
      LinesOfUriList(paths[1..]);
    }
  }

  lemma {:induction false} LinesBehind(first: Bytes, paths: seq<Bytes>)
    requires first != [] && LF !in first && CR !in first
    ensures Lines(first + GnomeLines(paths)) == [first] + UrisOf(paths)
    decreases paths
  {
    if paths == [] {
      assert first + GnomeLines(paths) == first;
      IndexOfAt(first, LF, []);
    } else {
      var uri, rest := UriOf(paths[0]), GnomeLines(paths[1..]);
      UriIsPlain(paths[0]);
      assert first[|first| - 1] in first;
      assert GnomeLines(paths) == [LF] + uri + rest && UrisOf(paths) == [uri] + UrisOf(paths[1..]);
      hide UriOf, GnomeLines, UrisOf, Lines;
      assert first + ([LF] + uri + rest) == first + [LF] + (uri + rest);
      LinesOfLf(first, uri + rest);
      LinesBehind(uri, paths[1..]);
    }
  }

  lemma {:induction false} PathsOfUris(paths: seq<Bytes>)
    ensures PathsOf(UrisOf(paths)) == Echoes(paths)
  {
    if paths != [] {
      PathsOfUris(paths[1..]);
      assert UrisOf(paths)[1..] == UrisOf(paths[1..]);
    }
  }

  /** Printing a path and reading it back gives it unchanged exactly when it is
      a local path. */
  lemma {:induction false} EchoIsThePathExactlyIfLocal(p: Bytes)
    requires ValidUtf8(p)
    ensures |Echo(p)| <= 1
    ensures Echo(p) == [p] <==> Local(p)
  {
    UriIsPlain(p);
    PlainIsTrimmed(UriOf(p));
    var uri := UriOf(p);
    hide Trim;
    assert uri[7..] == Encoded(p) && FILE <= uri;
    var e := Encoded(p);
    if p != [] && p[0] == SLASH {
      assert e[0] == SLASH && IndexOf(e, SLASH) == 0;
      assert e[0..] == e && e[..0] == [];
      DecodingUndoesEncoding(p);
    } else if FilePath(uri).Some? {
      var slash := IndexOf(e, SLASH);
      DecodedBeginsWithTheSlash(e[slash..]);
    }
  }

  lemma {:induction false} DecodedBeginsWithTheSlash(s: Bytes)
    requires s != [] && s[0] == SLASH && Decoded(s).Some?
    ensures Decoded(s).value != [] && Decoded(s).value[0] == SLASH
  {
  }

  lemma {:induction false} EchoesAreThePathsExactlyIfLocal(paths: seq<Bytes>)
    requires forall p | p in paths :: ValidUtf8(p)
    ensures |Echoes(paths)| <= |paths|
    ensures Echoes(paths) == paths <==> forall p | p in paths :: Local(p)
  {
    if paths != [] {
      var p, rest := paths[0], paths[1..];
      assert paths == [p] + rest;
      EchoIsThePathExactlyIfLocal(p);
      EchoesAreThePathsExactlyIfLocal(rest);
      hide Echo, Local, ValidUtf8;
      if Echoes(paths) == paths {
        assert |Echo(p)| == 1;
        assert Echoes(paths)[0] == Echo(p)[0] && Echoes(paths)[1..] == Echoes(rest);
        assert Echo(p) == [p];
      }
    }
  }

  /** Either body gives the list of paths back unchanged, whatever spaces,
      line breaks, `%`, `#` or other bytes they hold, exactly when all of them
      are local. */
  lemma {:induction false} BodiesReadBackExactlyIfLocal(paths: seq<Bytes>)
    requires forall p | p in paths :: ValidUtf8(p)
    ensures ParseUriList(UriListOf(paths)) == paths <==> forall p | p in paths :: Local(p)
    ensures ParseUriList(GnomeCopiedFilesOf(paths)) == paths <==> forall p | p in paths :: Local(p)
  {
    LinesOfUriList(paths);
    LinesBehind(COPY, paths);
    PathsOfUris(paths);
    PlainIsTrimmed(COPY);
    assert PathOfLine(COPY) == [];
    assert ([COPY] + UrisOf(paths))[1..] == UrisOf(paths);
    assert [] + Echoes(paths) == Echoes(paths);
    EchoesAreThePathsExactlyIfLocal(paths);
  }

  // ---- The host and the white space of a line ----

  /** A local URI names its path behind two slashes, or behind `localhost`. */
  lemma {:induction false} LocalPartIsBehindTheHost(uri: Bytes, t: Bytes)
    ensures LocalPart(uri) == Some(t) <==> t != [] && t[0] == SLASH && (uri == FILE + t || uri == FILE + LOCALHOST + t)
  {
    if LocalPart(uri) == Some(t) {
      var rest := uri[7..];
      var slash := IndexOf(rest, SLASH);
      assert uri == FILE + rest && rest == rest[..slash] + t;
      assert rest[..slash] == [] ==> rest == t;
      assert rest[..slash] == LOCALHOST ==> uri == FILE + LOCALHOST + t;
    }
    if t != [] && t[0] == SLASH {
      BehindTheHost([], t);
      BehindTheHost(LOCALHOST, t);
      assert FILE + [] + t == FILE + t;
    }
  }

  lemma {:induction false} BehindTheHost(host: Bytes, t: Bytes)
    requires t != [] && t[0] == SLASH && (host == [] || host == LOCALHOST)
    ensures LocalPart(FILE + host + t) == Some(t)
  {
    assert SLASH !in host;
    var rest := host + [SLASH] + t[1..];
    assert rest == host + t && (FILE + host + t)[7..] == rest && rest[..|host|] == host && rest[|host|..] == t;
    IndexOfAt(host, SLASH, t[1..]);
  }

  lemma {:induction false} AsciiIsText(s: Bytes)
    requires forall i | 0 <= i < |s| :: s[i] < 0x80
    ensures AllScalar(s) && Text(s) == s
  {
    if s != [] {
      AsciiIsText(s[1..]);
      assert s == [s[0]] + s[1..];
    }
  }

  /** A line is read as what it holds between the white space at its ends. */
  lemma {:induction false} WhiteSpaceDoesNotMatter(front: seq<nat>, inner: seq<nat>, behind: seq<nat>)
    requires AllScalar(front) && AllScalar(inner) && AllScalar(behind) && AllWhite(front) && AllWhite(behind)
    requires inner != [] ==> !IsWhite(inner[0]) && !IsWhite(inner[|inner| - 1])
    ensures PathOfLine(Text(front) + Text(inner) + Text(behind)) == PathOfLine(Text(inner))
  {
    TrimTakesTheWhiteSpace(front, inner, behind);
    TrimTakesTheWhiteSpace([], inner, []);
    assert Text([]) + Text(inner) + Text([]) == Text(inner);
    hide Trim, Text;
  }

  /** A printed path is read back from any such line, with `localhost` and
      without. */
  lemma {:induction false} PathsAreReadInAnyLine(front: seq<nat>, p: Bytes, behind: seq<nat>)
    requires AllScalar(front) && AllScalar(behind) && AllWhite(front) && AllWhite(behind)
    requires ValidUtf8(p) && Local(p)
    ensures PathOfLine(Text(front) + UriOf(p) + Text(behind)) == [p]
    ensures PathOfLine(Text(front) + (FILE + LOCALHOST + Encoded(p)) + Text(behind)) == [p]
  {
    var e := Encoded(p);
    assert e[0] == SLASH;
    EncodedIsPlain(p);
    EchoIsThePathExactlyIfLocal(p);
    hide *;
    var bare, full := FILE + e, FILE + LOCALHOST + e;
    assert UriOf(p) == bare;
    WithAndWithoutHost(e);
    PlainLine(front, bare, behind);
    PlainLine(front, full, behind);
  }

  lemma {:induction false} WithAndWithoutHost(e: Bytes)
    requires e != [] && e[0] == SLASH && Plain(e)
    ensures PathOfLine(FILE + e) == PathOfLine(FILE + LOCALHOST + e) && Plain(FILE + e) && Plain(FILE + LOCALHOST + e)
  {
    assert Plain(FILE) && Plain(LOCALHOST);
    assert Plain(FILE + e) && Plain(FILE + LOCALHOST + e);
    LocalPartIsBehindTheHost(FILE + e, e);
    LocalPartIsBehindTheHost(FILE + LOCALHOST + e, e);
    assert FILE <= FILE + e && FILE <= FILE + LOCALHOST + e;
    hide *;
    PlainIsTrimmed(FILE + e);
    PlainIsTrimmed(FILE + LOCALHOST + e);
    OfTheirLocalPart(FILE + e, FILE + LOCALHOST + e);
  }

  lemma {:induction false} PlainLine(front: seq<nat>, line: Bytes, behind: seq<nat>)
    requires AllScalar(front) && AllScalar(behind) && AllWhite(front) && AllWhite(behind)
    requires line != [] && Plain(line)
    ensures PathOfLine(Text(front) + line + Text(behind)) == PathOfLine(line)
  {
    assert forall i | 0 <= i < |line| :: line[i] in line;
    AsciiIsText(line);
    hide PathOfLine, Text;
    WhiteSpaceDoesNotMatter(front, line, behind);
  }

  lemma {:induction false} OfTheirLocalPart(a: Bytes, b: Bytes)
    requires Trim(a) == a && Trim(b) == b && FILE <= a && FILE <= b && LocalPart(a) == LocalPart(b)
    ensures PathOfLine(a) == PathOfLine(b)
  {
  }

  lemma {:induction false} Pieces(a: Bytes, b: Bytes, c: Bytes, d: Bytes, e: Bytes)
    ensures a + b + c + d + e == a + (b + (c + d) + e) == a + (b + c + d + e)
  {
    assert b + (c + d) == b + c + d;
    assert a + b + c + d == a + (b + c + d);
    assert a + (b + c + d) + e == a + ((b + c + d) + e);
  }

  method UriList(paths: seq<Bytes>) returns (s: Bytes)
    ensures s == UriListOf(paths)
  {
    s := [];
    assert paths[0..] == paths && [] + UriListOf(paths) == UriListOf(paths);
    for i := 0 to |paths|
      invariant s + UriListOf(paths[i..]) == UriListOf(paths)
    {
      assert paths[i..][0] == paths[i] && paths[i..][1..] == paths[i + 1..];
      ghost var before, rest := s, UriListOf(paths[i + 1..]);
      assert UriListOf(paths[i..]) == FILE + Encoded(paths[i]) + [CR, LF] + rest;
      hide UriListOf, Encoded;
      var encoded := PercentEncodePath(paths[i]);
      s := s + FILE;
      s := s + encoded;
      s := s + [CR, LF];
      Pieces(before, FILE, encoded, [CR, LF], rest);
    }
    assert paths[|paths|..] == [] && UriListOf([]) == [];
    assert s + [] == s;
  }

  method GnomeCopiedFiles(paths: seq<Bytes>) returns (s: Bytes)
    ensures s == GnomeCopiedFilesOf(paths)
  {
    s := COPY;
    assert paths[0..] == paths;
    for i := 0 to |paths|
      invariant s + GnomeLines(paths[i..]) == GnomeCopiedFilesOf(paths)
    {
      assert paths[i..][0] == paths[i] && paths[i..][1..] == paths[i + 1..];
      ghost var before, rest := s, GnomeLines(paths[i + 1..]);
      assert GnomeLines(paths[i..]) == [LF] + UriOf(paths[i]) + rest;
      assert UriOf(paths[i]) == FILE + Encoded(paths[i]);
      hide GnomeLines, UriOf, Encoded;
      var encoded := PercentEncodePath(paths[i]);
      s := s + [LF];
      s := s + FILE;
      s := s + encoded;
      Pieces(before, [LF], FILE, encoded, rest);
    }
    assert paths[|paths|..] == [] && GnomeLines([]) == [];
    assert s + [] == s;
  }

  // ---- Malformed lines ----

  /** Decoding as RFC 3986 has it for a path (sections 2.1 and 3.3): a byte of
      a segment or a slash, or a percent sign and two hex digits. A path that
      is not well formed has none. */
  function StrictDecoded(s: Bytes): Option<Bytes> {
    if s == [] then Some([])
    else if s[0] == PERCENT then
      if |s| < 3 || Digit(s[1]) == None || Digit(s[2]) == None then None
      else
        match StrictDecoded(s[3..])
        case None => None
        case Some(r) => Some([16 * Digit(s[1]).value + Digit(s[2]).value] + r)
    else if !Keeps(s[0]) then None
    else match StrictDecoded(s[1..]) { case None => None case Some(r) => Some([s[0]] + r) }
  }

  /** A percent sign, a plus sign and a hex digit. */
  predicate PlusEscapeAt(s: Bytes, i: nat) {
    i + 2 < |s| && s[i] == PERCENT && s[i + 1] == PLUS && Digit(s[i + 2]).Some?
  }

  /** A byte that may stand in a path only as an escape. */
  predicate RawByteAt(s: Bytes, i: nat) {
    i < |s| && s[i] != PERCENT && !Keeps(s[i])
  }

  /** What a malformed path that decodes all the same looks like. */
  ghost predicate HoldsMalformed(s: Bytes) {
    exists i: nat :: PlusEscapeAt(s, i) || RawByteAt(s, i)
  }

  /** Looked for from position `n` on, when there is none before. */
  lemma {:induction false} MalformedBehind(s: Bytes, n: nat)
    requires n <= |s| && forall i: nat | i < n :: !PlusEscapeAt(s, i) && !RawByteAt(s, i)
    ensures HoldsMalformed(s) <==> HoldsMalformed(s[n..])
  {
    forall i: nat
      ensures PlusEscapeAt(s[n..], i) <==> PlusEscapeAt(s, n + i)
      ensures RawByteAt(s[n..], i) <==> RawByteAt(s, n + i)
    {
    }
    if HoldsMalformed(s) {
      var i: nat :| PlusEscapeAt(s, i) || RawByteAt(s, i);
      assert PlusEscapeAt(s[n..], i - n) || RawByteAt(s[n..], i - n);
    }
    if HoldsMalformed(s[n..]) {
      var i: nat :| PlusEscapeAt(s[n..], i) || RawByteAt(s[n..], i);
      assert PlusEscapeAt(s, n + i) || RawByteAt(s, n + i);
    }
  }

  /** Text that decodes is decoded as the standard has it exactly when it holds
      neither an escape with a plus sign nor a raw byte that had to be an
      escape; with one of them it is malformed. */
  lemma {:induction false} DecodedStrictlyExactlyIfWellFormed(s: Bytes)
    ensures Decoded(s) == None ==> StrictDecoded(s) == None
    ensures Decoded(s).Some? ==> (StrictDecoded(s) == Decoded(s) <==> !HoldsMalformed(s))
    ensures Decoded(s).Some? ==> (StrictDecoded(s) == None <==> HoldsMalformed(s))
  {
    if s == [] {
    } else if s[0] != PERCENT {
      DecodedStrictlyExactlyIfWellFormed(s[1..]);
      if Keeps(s[0]) {
        MalformedBehind(s, 1);
      } else {
        assert RawByteAt(s, 0);
      }
    } else if |s| >= 3 && FromHex(s[1], s[2]).Some? {
      DecodedStrictlyExactlyIfWellFormed(s[3..]);
      if s[1] == PLUS {
        assert PlusEscapeAt(s, 0);
      } else {
        assert Keeps(s[1]) && Keeps(s[2]) && s[1] != PERCENT && s[2] != PERCENT;
        MalformedBehind(s, 3);
      }
    }
  }

  /** What the documentation promises of a line: a malformed one is skipped,
      like one that names no local path. */
  function StrictPathOfLine(line: Bytes): seq<Bytes> {
    var l := Trim(line);
    if l == [] || l[0] == HASH || LocalPart(l) == None || StrictDecoded(LocalPart(l).value) == None then []
    else
      var p := StrictDecoded(LocalPart(l).value).value;
      if !ValidUtf8(p) || 0 in p then [] else [p]
  }

  function StrictPathsOf(lines: seq<Bytes>): seq<Bytes> {
    if lines == [] then [] else StrictPathOfLine(lines[0]) + StrictPathsOf(lines[1..])
  }

  /** A path comes of the line. */
  predicate IsRead(line: Bytes) { PathOfLine(line) != [] }

  /** The line is a local URI whose path is malformed, of the kinds that
      decode. */
  ghost predicate Malformed(line: Bytes) {
    LocalPart(Trim(line)).Some? && HoldsMalformed(LocalPart(Trim(line)).value)
  }

  /** A line that is read is treated as promised exactly when it is not
      malformed; else it should have been skipped. What is skipped was to be
      skipped. */
  lemma {:induction false} LineReadAsPromisedExactlyIfWellFormed(line: Bytes)
    ensures !IsRead(line) ==> StrictPathOfLine(line) == []
    ensures IsRead(line) ==> |PathOfLine(line)| == 1 && (PathOfLine(line) == StrictPathOfLine(line) <==> !Malformed(line))
    ensures IsRead(line) ==> (StrictPathOfLine(line) == [] <==> Malformed(line))
  {
    var l := Trim(line);
    hide Trim, LocalPart, HoldsMalformed, ValidUtf8;
    if LocalPart(l).Some? {
      DecodedStrictlyExactlyIfWellFormed(LocalPart(l).value);
    }
  }

  /** And a whole list exactly when none of the lines read is malformed. */
  lemma {:induction false} ListReadAsPromisedExactlyIfWellFormed(lines: seq<Bytes>)
    ensures |StrictPathsOf(lines)| <= |PathsOf(lines)|
    ensures PathsOf(lines) == StrictPathsOf(lines) <==> forall line | line in lines && IsRead(line) :: !Malformed(line)
  {
    if lines != [] {
      var first, rest := lines[0], lines[1..];
      assert lines == [first] + rest;
      LineReadAsPromisedExactlyIfWellFormed(first);
      ListReadAsPromisedExactlyIfWellFormed(rest);
      hide PathOfLine, StrictPathOfLine, Malformed;
      if PathsOf(lines) == StrictPathsOf(lines) {
        assert |PathOfLine(first)| == |StrictPathOfLine(first)|;
        assert PathOfLine(first) == PathsOf(lines)[..|PathOfLine(first)|];
        assert PathsOf(rest) == PathsOf(lines)[|PathOfLine(first)|..];
      }
    }
  }

  lemma {:induction false} BodyReadAsPromisedExactlyIfWellFormed(body: Bytes)
    ensures ParseUriList(body) == StrictPathsOf(Lines(body))
            <==> forall line | line in Lines(body) && IsRead(line) :: !Malformed(line)
  {
    ListReadAsPromisedExactlyIfWellFormed(Lines(body));
  }

  // ---- Two malformed bodies that are read ----

  /** A body of one line, whose path is `t`. */
  lemma {:induction false} OneLine(t: Bytes, p: Bytes)
    requires t != [] && t[0] == SLASH && Decoded(t) == Some(p) && ValidUtf8(p) && 0 !in p && HoldsMalformed(t)
    requires t[|t| - 1] != 32 && forall i | 0 <= i < |t| :: 32 <= t[i] <= 126
    ensures ParseUriList(FILE + t) == [p] && StrictPathsOf(Lines(FILE + t)) == []
  {
    var line := FILE + t;
    assert line[7..] == t && t[0..] == t && t[..0] == [] && IndexOf(t, SLASH) == 0;
    assert LocalPart(line) == Some(t);
    assert line[|line| - 1] == t[|t| - 1] && WhiteInFront(line) == 0 && WhiteBehind(line) == 0;
    assert Trim(line) == line;
    hide WhiteInFront, WhiteBehind, Trim, LocalPart, HoldsMalformed, ValidUtf8, Decoded;
    assert IndexOf(line, LF) == |line| by {
      IndexOfAt(line, LF, []);
    }
    assert Lines(line) == [line] && [line][1..] == [];
    hide Lines, StrictDecoded;
    assert FilePath(line) == Some(p);
    assert PathsOf([line]) == PathOfLine(line) + PathsOf([]);
    LineReadAsPromisedExactlyIfWellFormed(line);
    assert StrictPathsOf([line]) == StrictPathOfLine(line) + StrictPathsOf([]);
  }

  /** `file:///%+A` names the path of a line break where no path was
      promised. */
  lemma {:induction false} APlusPassesForADigit()
    ensures ParseUriList(FILE + [SLASH, PERCENT, PLUS, 65]) == [[SLASH, LF]]
    ensures StrictPathsOf(Lines(FILE + [SLASH, PERCENT, PLUS, 65])) == []
  {
    var t: Bytes := [SLASH, PERCENT, PLUS, 65];
    assert PlusEscapeAt(t, 1);
    var q: Bytes := [PERCENT, PLUS, 65];
    var tail: Bytes := [LF] + [];
    assert t[1..] == q && q[3..] == [] && tail == [LF];
    assert Decoded(q[3..]) == Some([]) && FromHex(q[1], q[2]) == Some(LF) && Decoded(q) == Some(tail);
    var p: Bytes := [SLASH, LF];
    assert Decoded(t) == Some([t[0]] + tail) && [t[0]] + tail == p;
    assert p[1..] == [LF] && p[1..][1..] == [] && ValidUtf8(p[1..]);
    OneLine(t, p);
  }

  /** And `file:///a b` names one, whose blank had to be an escape. */
  lemma {:induction false} ABlankPassesForAnEscape()
    ensures ParseUriList(FILE + [SLASH, 97, 32, 98]) == [[SLASH, 97, 32, 98]]
    ensures StrictPathsOf(Lines(FILE + [SLASH, 97, 32, 98])) == []
  {
    var t: Bytes := [SLASH, 97, 32, 98];
    assert RawByteAt(t, 2);
    NothingEscaped(t);
    OneLine(t, t);
  }

  lemma {:induction false} NothingEscaped(t: Bytes)
    requires forall i | 0 <= i < |t| :: t[i] <= 0x7F && t[i] != PERCENT
    ensures Decoded(t) == Some(t) && ValidUtf8(t)
  {
    if t != [] {
      NothingEscaped(t[1..]);
      assert t == [t[0]] + t[1..] && CharLength(t) == 1;
    }
  }
}
