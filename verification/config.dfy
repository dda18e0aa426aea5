/**
  The text handling of the neighbour configuration: `SocketInfo.from_str`
  (an `address:port` line) and the line filtering of `load_config`. Python's
  `str.rstrip`, `str.split(':')` and `int` are written out, each with an
  independent characterisation or an inverse.
 */
module Config {
  import opened Types

  /** The white space of C's `isspace`: space, tab, line feed, vertical tab,
      form feed and carriage return. */
  predicate AsciiSpace(c: char) {
    c == ' ' || ('\t' <= c <= '\r')
  }

  /** The non-ASCII characters Python's `str.isspace` accepts. */
  predicate WideSpace(c: char) {
    || c == '\U{0085}' || c == '\U{00A0}' || c == '\U{1680}'
    || ('\U{2000}' <= c <= '\U{200A}')
    || c == '\U{2028}' || c == '\U{2029}' || c == '\U{202F}'
    || c == '\U{205F}' || c == '\U{3000}'
  }

  /** The characters Python's `str.isspace` accepts. */
  predicate IsSpace(c: char) {
    AsciiSpace(c) || ('\U{001C}' <= c <= '\U{001F}') || WideSpace(c)
  }

  predicate IsDigit(c: char) {
    '0' <= c <= '9'
  }

  /** The white space `int()` strips: CPython maps every non-ASCII space to
      ' ' and then strips only C's `isspace` characters, so the separators
      U+001C to U+001F, which `str.isspace` accepts, are kept (and then
      rejected as non-digits). */
  predicate IntSpace(c: char) {
    AsciiSpace(c) || WideSpace(c)
  }

  /** Drops the longest suffix made only of `ws` characters. */
  function TrimEnd(s: string, ws: char -> bool): (r: string)
    ensures r <= s
    ensures r == [] || !ws(r[|r| - 1])
    ensures forall i :: |r| <= i < |s| ==> ws(s[i])
  {
    if s != [] && ws(s[|s| - 1]) then TrimEnd(s[..|s| - 1], ws) else s
  }

  /** Drops the longest prefix made only of `ws` characters. */
  function TrimStart(s: string, ws: char -> bool): (r: string)
    ensures |r| <= |s| && r == s[|s| - |r|..]
    ensures r == [] || !ws(r[0])
    ensures forall i :: 0 <= i < |s| - |r| ==> ws(s[i])
  {
    if s != [] && ws(s[0]) then TrimStart(s[1..], ws) else s
  }

  /** `str.rstrip()`: drops the longest suffix of `str.isspace` characters. */
  function RStrip(s: string): (r: string)
    ensures r <= s
    ensures r == [] || !IsSpace(r[|r| - 1])
    ensures forall i :: |r| <= i < |s| ==> IsSpace(s[i])
  {
    TrimEnd(s, IsSpace)
  }

  /** The strip `int()` applies to its argument, at both ends. */
  function IntStrip(s: string): string {
    TrimStart(TrimEnd(s, IntSpace), IntSpace)
  }

  /** Trailing `ws` characters after a text that does not end in one are
      exactly what `TrimEnd` drops. */
  lemma {:induction false} TrimEndPad(x: string, w: string, ws: char -> bool)
    requires x == [] || !ws(x[|x| - 1])
    requires forall i :: 0 <= i < |w| ==> ws(w[i])
    ensures TrimEnd(x + w, ws) == x
    decreases |w|
  {
    if w == [] {
      assert x + w == x;
    } else {
      var w' := w[..|w| - 1];
      assert (x + w)[..|x + w| - 1] == x + w';
      assert (x + w)[|x + w| - 1] == w[|w| - 1];
      TrimEndPad(x, w', ws);
    }
  }

  /** Leading `ws` characters before a text that does not start with one are
      exactly what `TrimStart` drops. */
  lemma {:induction false} TrimStartPad(w: string, y: string, ws: char -> bool)
    requires forall i :: 0 <= i < |w| ==> ws(w[i])
    requires y == [] || !ws(y[0])
    ensures TrimStart(w + y, ws) == y
    decreases |w|
  {
    if w == [] {
      assert w + y == y;
    } else {
      assert (w + y)[0] == w[0];
      assert (w + y)[1..] == w[1..] + y;
      TrimStartPad(w[1..], y, ws);
    }
  }

  /** `s.split(sep)` for a one-character separator: the maximal runs between
      separators, so there is always one more part than separators. */
  function Split(s: string, sep: char): (parts: seq<string>)
    ensures |parts| >= 1
    ensures forall k :: 0 <= k < |parts| ==> sep !in parts[k]
  {
    if s == [] then [[]]
    else
      var rest := Split(s[1..], sep);
      if s[0] == sep then [[]] + rest
      else [[s[0]] + rest[0]] + rest[1..]
  }

  /** `sep.join(parts)`. */
  function Join(parts: seq<string>, sep: char): string
    requires |parts| >= 1
  {
    if |parts| == 1 then parts[0] else parts[0] + [sep] + Join(parts[1..], sep)
  }

  /** Splitting undoes joining, so `Split` loses no text. */
  lemma {:induction false} JoinSplit(s: string, sep: char)
    ensures Join(Split(s, sep), sep) == s
  {
    if s != [] {
      JoinSplit(s[1..], sep);
      var rest := Split(s[1..], sep);
      if s[0] != sep {
        if |rest| == 1 {
        } else {
          assert rest == [rest[0]] + rest[1..];
          assert Join(rest, sep) == rest[0] + [sep] + Join(rest[1..], sep);
        }
      }
    }
  }

  /** Joining undoes splitting when no part contains the separator. */
  lemma {:induction false} SplitJoin(parts: seq<string>, sep: char)
    requires |parts| >= 1
    requires forall k :: 0 <= k < |parts| ==> sep !in parts[k]
    ensures Split(Join(parts, sep), sep) == parts
  {
    if |parts| == 1 {
      SplitNoSep(parts[0], sep);
    } else {
      var tail := Join(parts[1..], sep);
      assert Join(parts, sep) == parts[0] + [sep] + tail;
      SplitJoin(parts[1..], sep);
      SplitPrefix(parts[0], [sep] + tail, sep);
      assert parts[0] + [sep] + tail == parts[0] + ([sep] + tail);
      assert ([sep] + tail)[1..] == tail;
      assert ([sep] + tail)[0] == sep;
      var x := Split([sep] + tail, sep);
      assert x == [[]] + parts[1..];
      assert x[0] == [] && x[1..] == parts[1..];
      assert parts[0] + x[0] == parts[0];
      assert Split(Join(parts, sep), sep) == [parts[0]] + parts[1..];
      assert [parts[0]] + parts[1..] == parts;
    }
  }

  lemma {:induction false} SplitNoSep(s: string, sep: char)
    requires sep !in s
    ensures Split(s, sep) == [s]
  {
    if s != [] {
      SplitNoSep(s[1..], sep);
      assert s[0] != sep;
      assert [s[0]] + s[1..] == s;
    }
  }

  /** A separator-free prefix glues onto the first part of what follows. */
  lemma {:induction false} SplitPrefix(a: string, b: string, sep: char)
    requires sep !in a
    ensures Split(a + b, sep) == [a + Split(b, sep)[0]] + Split(b, sep)[1..]
  {
    if a != [] {
      SplitPrefix(a[1..], b, sep);
      assert (a + b)[1..] == a[1..] + b;
      assert (a + b)[0] == a[0] != sep;
      var rest := Split(a[1..] + b, sep);
      assert rest[0] == a[1..] + Split(b, sep)[0];
      assert [a[0]] + rest[0] == a + Split(b, sep)[0];
    } else {
      assert a + b == b;
      var sb := Split(b, sep);
      assert [] + sb[0] == sb[0];
      assert [sb[0]] + sb[1..] == sb;
    }
  }

  /** Python's `int()` digit body: ASCII digits, single underscores allowed
      between digits. */
  predicate ValidDigits(t: string) {
    && |t| > 0
    && IsDigit(t[0]) && IsDigit(t[|t| - 1])
    && (forall i :: 0 <= i < |t| ==> IsDigit(t[i]) || t[i] == '_')
    && (forall i :: 0 <= i < |t| - 1 ==> !(t[i] == '_' && t[i + 1] == '_'))
  }

  function DropUnderscores(t: string): (d: string)
    ensures (forall i :: 0 <= i < |t| ==> IsDigit(t[i]) || t[i] == '_') ==>
              (forall i :: 0 <= i < |d| ==> IsDigit(d[i]))
  {
    if t == [] then []
    else if t[0] == '_' then DropUnderscores(t[1..])
    else [t[0]] + DropUnderscores(t[1..])
  }

  /** The value of a decimal numeral, most significant digit first. */
  function DigitsValue(d: string): nat
    requires forall i :: 0 <= i < |d| ==> IsDigit(d[i])
  {
    if d == [] then 0
    else
      assert IsDigit(d[|d| - 1]);
      DigitsValue(d[..|d| - 1]) * 10 + (d[|d| - 1] as int - '0' as int)
  }

  /** `int(s)`: surrounding white space, an optional sign, then digits. */
  function ParseInt(s: string): Option<int> {
    ReadInt(IntStrip(s))
  }

  /** `int()` on a stripped text: an optional sign, then digits. */
  function ReadInt(t: string): Option<int> {
    if |t| > 0 && (t[0] == '+' || t[0] == '-') then
      var body := t[1..];
      if ValidDigits(body) then
        var v: int := DigitsValue(DropUnderscores(body));
        Some(if t[0] == '-' then -v else v)
      else None
    else if ValidDigits(t) then
      Some(DigitsValue(DropUnderscores(t)))
    else None
  }

  /** Decimal rendering without leading zeros (Python `str(n)`). */
  function NatToString(n: nat): (d: string)
    ensures |d| > 0
    ensures forall i :: 0 <= i < |d| ==> IsDigit(d[i])
  {
    if n < 10 then [('0' as int + n) as char]
    else NatToString(n / 10) + [('0' as int + n % 10) as char]
  }

  function IntToString(n: int): string {
    if n < 0 then "-" + NatToString(-n) else NatToString(n)
  }

  lemma {:induction false} DigitsValueOfNatToString(n: nat)
    ensures DigitsValue(NatToString(n)) == n
  {
    if n >= 10 {
      DigitsValueOfNatToString(n / 10);
      var d := NatToString(n);
      assert d[..|d| - 1] == NatToString(n / 10);
    }
  }

  lemma {:induction false} DropUnderscoresOfDigits(d: string)
    requires forall i :: 0 <= i < |d| ==> IsDigit(d[i])
    ensures DropUnderscores(d) == d
  {
    if d != [] {
      DropUnderscoresOfDigits(d[1..]);
    }
  }

  lemma StripNoSpaceEnds(s: string)
    requires |s| > 0 && !IntSpace(s[0]) && !IntSpace(s[|s| - 1])
    ensures IntStrip(s) == s
  {
    TrimEndPad(s, [], IntSpace);
    assert s + [] == s;
    TrimStartPad([], s, IntSpace);
    assert [] + s == s;
  }

  /** `int()` ignores padding: surrounding a text that neither starts nor
      ends in `int()`'s white space with such white space does not change
      what it reads as. */
  lemma ParseIntPadding(w1: string, t: string, w2: string)
    requires forall i :: 0 <= i < |w1| ==> IntSpace(w1[i])
    requires forall i :: 0 <= i < |w2| ==> IntSpace(w2[i])
    requires t == [] || (!IntSpace(t[0]) && !IntSpace(t[|t| - 1]))
    ensures ParseInt(w1 + t + w2) == ParseInt(t)
  {
    IntStripPadding(w1, t, w2);
    if t != [] {
      StripNoSpaceEnds(t);
    } else {
      assert IntStrip(t) == [];
    }
  }

  lemma IntStripPadding(w1: string, t: string, w2: string)
    requires forall i :: 0 <= i < |w1| ==> IntSpace(w1[i])
    requires forall i :: 0 <= i < |w2| ==> IntSpace(w2[i])
    requires t == [] || (!IntSpace(t[0]) && !IntSpace(t[|t| - 1]))
    ensures IntStrip(w1 + t + w2) == t
  {
    if t == [] {
      assert w1 + t + w2 == w1 + w2;
      assert forall i :: 0 <= i < |w1 + w2| ==> IntSpace((w1 + w2)[i]) by {
        forall i | 0 <= i < |w1 + w2| ensures IntSpace((w1 + w2)[i]) {
          if i < |w1| { assert (w1 + w2)[i] == w1[i]; } else { assert (w1 + w2)[i] == w2[i - |w1|]; }
        }
      }
      TrimEndPad([], w1 + w2, IntSpace);
      assert [] + (w1 + w2) == w1 + w2;
    } else {
      assert (w1 + t)[|w1 + t| - 1] == t[|t| - 1];
      TrimEndPad(w1 + t, w2, IntSpace);
      TrimStartPad(w1, t, IntSpace);
    }
  }

  /** `int()` rejects any text holding a character that is neither its
      white space, a sign, a digit nor an underscore. */
  lemma ParseIntRejects(s: string, i: nat)
    requires i < |s|
    requires !IntSpace(s[i]) && s[i] != '+' && s[i] != '-' && !IsDigit(s[i]) && s[i] != '_'
    ensures ParseInt(s) == None
  {
    var e := TrimEnd(s, IntSpace);
    assert i < |e| && e[i] == s[i];
    var t := TrimStart(e, IntSpace);
    var off := |e| - |t|;
    assert off <= i;
    assert t[i - off] == s[i];
    if t[0] == '+' || t[0] == '-' {
      assert i - off > 0;
      assert t[1..][i - off - 1] == s[i];
      assert !ValidDigits(t[1..]);
    } else {
      assert !ValidDigits(t);
    }
  }

  /** `int()` reads back what `str()` writes, for every integer. */
  lemma ParseIntToString(n: int)
    ensures ParseInt(IntToString(n)) == Some(n)
  {
    if n < 0 {
      ParseIntNegative(-n);
    } else {
      ParseIntNatural(n);
    }
  }

  lemma ParseIntNatural(m: nat)
    ensures ParseInt(IntToString(m)) == Some(m)
  {
    var d := NatToString(m);
    assert IntToString(m) == d;
    NatToStringReads(m);
    DigitIsPlain(d[0]);
    DigitIsPlain(d[|d| - 1]);
    StripNoSpaceEnds(d);
    StrippedReads(IntToString(m), d);
    DigitsRead(d, m);
  }

  lemma ParseIntNegative(m: nat)
    requires m > 0
    ensures ParseInt(IntToString(-(m as int))) == Some(-(m as int))
  {
    var d := NatToString(m);
    var s := "-" + d;
    assert IntToString(-(m as int)) == s;
    NatToStringReads(m);
    DigitIsPlain(d[|d| - 1]);
    assert s[|s| - 1] == d[|d| - 1];
    StripNoSpaceEnds(s);
    assert s[0] == '-' && s[1..] == d;
    StrippedReads(IntToString(-(m as int)), s);
    SignedReads(s, m);
  }

  /** `int()` reads a text as it reads the text's stripped core. */
  lemma StrippedReads(s: string, t: string)
    requires IntStrip(s) == t
    ensures ParseInt(s) == ReadInt(t)
  {
  }

  /** An unsigned valid digit body reads as its value. */
  lemma DigitsRead(d: string, m: nat)
    requires ValidDigits(d) && DigitsValue(DropUnderscores(d)) == m
    ensures ReadInt(d) == Some(m)
  {
  }

  /** A '-' followed by a valid digit body reads as the negated value. */
  lemma SignedReads(t: string, m: nat)
    requires |t| > 0 && t[0] == '-'
    requires ValidDigits(t[1..]) && DigitsValue(DropUnderscores(t[1..])) == m
    ensures ReadInt(t) == Some(-(m as int))
  {
  }

  lemma DigitIsPlain(c: char)
    requires IsDigit(c)
    ensures !IsSpace(c) && !IntSpace(c) && c != '+' && c != '-'
  {
  }

  /** The digits `str()` writes are a valid `int()` body worth the number. */
  lemma NatToStringReads(m: nat)
    ensures ValidDigits(NatToString(m))
    ensures DropUnderscores(NatToString(m)) == NatToString(m)
    ensures DigitsValue(NatToString(m)) == m
  {
    DigitsValueOfNatToString(m);
    DropUnderscoresOfDigits(NatToString(m));
  }

  /** Why `from_str` rejects a line: not exactly one ':', or a port that is
      not an integer literal (both a ValueError in the source). */
  datatype ParseError = FieldCount(fields: nat) | BadPort(text: string)

  /** `SocketInfo.from_str`. */
  function FromStr(s: string): (r: Result<SocketInfo, ParseError>)
    ensures r.Ok? <==> |Split(s, ':')| == 2 && ParseInt(Split(s, ':')[1]).Some?
    // the address is all the text before the one ':', and the port is the
    // integer the text after it reads as
    ensures r.Ok? ==> var n := |r.value.addr|;
      && ':' !in r.value.addr
      && n < |s| && s[..n] == r.value.addr && s[n] == ':'
      && s[n + 1..] == Split(s, ':')[1] && ParseInt(Split(s, ':')[1]) == Some(r.value.port)
  {
    var parts := Split(s, ':');
    if |parts| != 2 then Err(FieldCount(|parts|))
    else match ParseInt(parts[1])
      case None => Err(BadPort(parts[1]))
      case Some(port) =>
        SplitTwo(s, ':');
        Ok(SocketInfo(parts[0], port))
  }

  /** A text that splits into two parts is the first part, the separator and
      the second part. */
  lemma SplitTwo(s: string, sep: char)
    requires |Split(s, sep)| == 2
    ensures var parts := Split(s, sep);
      var n := |parts[0]|;
      n < |s| && s[..n] == parts[0] && s[n] == sep && s[n + 1..] == parts[1]
  {
    var parts := Split(s, sep);
    JoinSplit(s, sep);
    assert parts[1..] == [parts[1]];
    assert s == parts[0] + [sep] + parts[1];
  }

  /** Conversely, any colon-free address, a ':' and a colon-free integer
      literal read as that endpoint, whatever spacing, sign or underscores the
      literal carries. */
  lemma FromStrOfParts(addr: string, port: string, n: int)
    requires ':' !in addr && ':' !in port
    requires ParseInt(port) == Some(n)
    ensures FromStr(addr + ":" + port) == Ok(SocketInfo(addr, n))
  {
    SplitOfParts(addr, port);
    FromStrOfSplit(addr + ":" + port, addr, port, n);
  }

  /** A port padded with a separator character U+001C, which `str.isspace`
      accepts but `int()` does not strip, makes the line invalid. */
  lemma SeparatorPortRejected()
    ensures FromStr("h:\U{001C}5").Err?
  {
    SplitOfParts("h", "\U{001C}5");
    assert "h" + ":" + "\U{001C}5" == "h:\U{001C}5";
    ParseIntRejects("\U{001C}5", 0);
  }

  lemma SplitOfParts(addr: string, port: string)
    requires ':' !in addr && ':' !in port
    ensures Split(addr + ":" + port, ':') == [addr, port]
  {
    SplitJoin([addr, port], ':');
    assert Join([addr, port], ':') == addr + ":" + port by {
      assert [addr, port][1..] == [port];
    }
  }

  lemma FromStrOfSplit(s: string, addr: string, port: string, n: int)
    requires Split(s, ':') == [addr, port] && ParseInt(port) == Some(n)
    ensures FromStr(s) == Ok(SocketInfo(addr, n))
  {
  }

  /** The `address:port` text of an endpoint. */
  function ToStr(si: SocketInfo): string {
    si.addr + ":" + IntToString(si.port)
  }

  /** Every endpoint whose address has no ':' survives a write and a read. */
  lemma FromStrToStr(si: SocketInfo)
    requires ':' !in si.addr
    ensures FromStr(ToStr(si)) == Ok(si)
  {
    var p := IntToString(si.port);
    assert ':' !in p by {
      var m := if si.port < 0 then -si.port else si.port;
      assert forall i :: 0 <= i < |NatToString(m)| ==> IsDigit(NatToString(m)[i]);
    }
    SplitJoin([si.addr, p], ':');
    assert Join([si.addr, p], ':') == ToStr(si) by {
      assert [si.addr, p][1..] == [p];
    }
    ParseIntToString(si.port);
  }

  /** The configuration lines that `load_config` keeps: the right-stripped
      lines that are not empty, in file order. */
  function NonBlank(lines: seq<string>): (kept: seq<string>)
    ensures |kept| <= |lines|
    ensures forall k :: 0 <= k < |kept| ==> kept[k] != [] && !IsSpace(kept[k][|kept[k]| - 1])
    // no line with text is lost
    ensures forall k :: 0 <= k < |lines| && RStrip(lines[k]) != [] ==> RStrip(lines[k]) in kept
  {
    if lines == [] then []
    else
      var ln := RStrip(lines[0]);
      var rest := NonBlank(lines[1..]);
      assert forall k :: 1 <= k < |lines| ==> lines[k] == lines[1..][k - 1];
      if ln != [] then [ln] + rest else rest
  }

  /** A single line is kept, right-stripped, exactly when it has text. */
  lemma NonBlankLine(line: string)
    ensures NonBlank([line]) == if RStrip(line) == [] then [] else [RStrip(line)]
  {
    assert [line][1..] == [];
  }

  /** Filtering works line by line: the kept lines of a file are the kept
      lines of its first part followed by those of the rest, so together with
      `NonBlankLine` the result is every line with text, right-stripped, in
      file order. */
  lemma {:induction false} NonBlankAppend(a: seq<string>, b: seq<string>)
    ensures NonBlank(a + b) == NonBlank(a) + NonBlank(b)
    decreases |a|
  {
    if a == [] {
      assert a + b == b;
    } else {
      var head := if RStrip(a[0]) == [] then [] else [RStrip(a[0])];
      assert NonBlank(a + b) == head + NonBlank(a[1..] + b) by {
        assert (a + b)[0] == a[0];
        assert (a + b)[1..] == a[1..] + b;
      }
      assert NonBlank(a) == head + NonBlank(a[1..]);
      NonBlankAppend(a[1..], b);
      ConcatAssoc(head, NonBlank(a[1..]), NonBlank(b));
    }
  }


  /** `load_config`: parses every kept line; the first bad line aborts. */
  function LoadConfig(lines: seq<string>): (r: Result<seq<SocketInfo>, ParseError>)
    ensures r.Ok? <==> AllParse(NonBlank(lines))
    ensures r.Ok? ==> ParsedFrom(r.value, NonBlank(lines))
  {
    ParseAll(NonBlank(lines))
  }

  /** Every kept line is a valid `address:port`. */
  predicate AllParse(kept: seq<string>) {
    forall k :: 0 <= k < |kept| ==> FromStr(kept[k]).Ok?
  }

  /** `nbs` holds the endpoints of `kept`, one per line, in order. */
  predicate ParsedFrom(nbs: seq<SocketInfo>, kept: seq<string>) {
    && |nbs| == |kept|
    && forall k :: 0 <= k < |kept| ==> FromStr(kept[k]) == Ok(nbs[k])
  }

  function ParseAll(kept: seq<string>): (r: Result<seq<SocketInfo>, ParseError>)
    ensures r.Ok? <==> AllParse(kept)
    ensures r.Ok? ==> ParsedFrom(r.value, kept)
  {
    if kept == [] then Ok([])
    else
      var head := FromStr(kept[0]);
      var tail := ParseAll(kept[1..]);
      AllParseCons(kept);
      if head.Err? then Err(head.error)
      else if tail.Err? then Err(tail.error)
      else
        ParsedFromCons(kept, head.value, tail.value);
        Ok([head.value] + tail.value)
  }

  lemma ParsedFromCons(kept: seq<string>, head: SocketInfo, tail: seq<SocketInfo>)
    requires kept != [] && FromStr(kept[0]) == Ok(head) && ParsedFrom(tail, kept[1..])
    ensures ParsedFrom([head] + tail, kept)
  {
    OkCons(FromStr, kept, head, tail);
  }

  /** A pointwise match of a list's head and of its tail is a pointwise match
      of the whole list. */
  lemma OkCons<A, B, E>(f: A -> Result<B, E>, xs: seq<A>, head: B, tail: seq<B>)
    requires xs != [] && f(xs[0]) == Ok(head)
    requires |tail| == |xs| - 1
    requires forall k :: 0 <= k < |tail| ==> f(xs[1..][k]) == Ok(tail[k])
    ensures forall k :: 0 <= k < |xs| ==> f(xs[k]) == Ok(([head] + tail)[k])
  {
    forall k | 0 <= k < |xs| ensures f(xs[k]) == Ok(([head] + tail)[k]) {
      if k > 0 {
        assert xs[k] == xs[1..][k - 1];
      }
    }
  }

  lemma AllParseCons(kept: seq<string>)
    requires kept != []
    ensures AllParse(kept) <==> FromStr(kept[0]).Ok? && AllParse(kept[1..])
  {
    if FromStr(kept[0]).Ok? && AllParse(kept[1..]) {
      forall k | 0 <= k < |kept| ensures FromStr(kept[k]).Ok? {
        if k > 0 {
          assert kept[k] == kept[1..][k - 1];
        }
      }
    }
  }

  /** One `address:port` line per neighbour. */
  function Render(nbs: seq<SocketInfo>): seq<string> {
    if nbs == [] then [] else [ToStr(nbs[0]) + "\n"] + Render(nbs[1..])
  }

  /** Writing a neighbour list and loading it back gives the same list. */
  lemma LoadConfigRender(nbs: seq<SocketInfo>)
    requires forall k :: 0 <= k < |nbs| ==> ':' !in nbs[k].addr
    ensures LoadConfig(Render(nbs)) == Ok(nbs)
  {
    NonBlankRender(nbs);
    ParseAllStrs(nbs);
  }

  function Strs(nbs: seq<SocketInfo>): seq<string> {
    if nbs == [] then [] else [ToStr(nbs[0])] + Strs(nbs[1..])
  }

  lemma {:induction false} NonBlankRender(nbs: seq<SocketInfo>)
    ensures NonBlank(Render(nbs)) == Strs(nbs)
  {
    if nbs != [] {
      var line := ToStr(nbs[0]) + "\n";
      assert RStrip(line) == ToStr(nbs[0]) by {
        assert line[..|line| - 1] == ToStr(nbs[0]);
        LastIsDigit(nbs[0]);
      }
      var r := Render(nbs);
      assert NonBlank(r) == [ToStr(nbs[0])] + NonBlank(Render(nbs[1..])) by {
        assert r[0] == line && r[1..] == Render(nbs[1..]);
      }
      NonBlankRender(nbs[1..]);
    }
  }

  lemma {:induction false} ParseAllStrs(nbs: seq<SocketInfo>)
    requires forall k :: 0 <= k < |nbs| ==> ':' !in nbs[k].addr
    ensures ParseAll(Strs(nbs)) == Ok(nbs)
  {
    if nbs != [] {
      ParseAllStrs(nbs[1..]);
      FromStrToStr(nbs[0]);
      var ss := Strs(nbs);
      assert ss[0] == ToStr(nbs[0]) && ss[1..] == Strs(nbs[1..]);
      assert [nbs[0]] + nbs[1..] == nbs;
    }
  }

  lemma LastIsDigit(si: SocketInfo)
    ensures IsDigit(ToStr(si)[|ToStr(si)| - 1])
  {
    var m := if si.port < 0 then -si.port else si.port;
    var d := NatToString(m);
    assert ToStr(si)[|ToStr(si)| - 1] == d[|d| - 1];
  }
}
