/**
  The text protocol: the tokenizer `strtok_save` (import/BeDIS.c), the framing and parsing of
  packets (src/Server.c), and the command printer of the IPC tool with the two parsers that its
  messages go through (cmdServerIPC.c, src/Server.c, src/GeoFence.c).
 */
module Wire {
  datatype Option<T> = None | Some(value: T)

  /* --------------------------- fields of a message ------------------------- */

  /** The length of the text before the first `d`. */
  function Span(s: string, d: char): (n: nat)
    ensures n <= |s| && d !in s[..n] && (n < |s| ==> s[n] == d)
  {
    if s == "" || s[0] == d then 0 else 1 + Span(s[1..], d)
  }

  lemma {:induction false} SpanIs(s: string, d: char, n: nat)
    requires n <= |s| && d !in s[..n] && (n < |s| ==> s[n] == d)
    ensures Span(s, d) == n
  {
    if n > 0 {
      assert s[..n][0] == s[0] && s[1..][..n - 1] == s[..n][1..];
      SpanIs(s[1..], d, n - 1);
    }
  }

  function Split(s: string, d: char): (r: seq<string>)
    ensures |r| > 0
  {
    var n := Span(s, d);
    if n == |s| then [s] else [s[..n]] + Split(s[n + 1..], d)
  }

  function Join(f: seq<string>, d: char): string {
    if f == [] then "" else if |f| == 1 then f[0] else f[0] + [d] + Join(f[1..], d)
  }

  lemma JoinCons(a: string, f: seq<string>, d: char)
    requires f != []
    ensures Join([a] + f, d) == a + [d] + Join(f, d) && Join([a], d) == a
  {
    assert ([a] + f)[1..] == f;
  }

  lemma {:induction false} JoinSplit(s: string, d: char)
    ensures Join(Split(s, d), d) == s
  {
    var n := Span(s, d);
    if n == |s| {
      JoinCons(s, [""], d);
    } else {
      JoinSplit(s[n + 1..], d);
      hide Join, Span;
      JoinCons(s[..n], Split(s[n + 1..], d), d);
      assert s == s[..n] + [d] + s[n + 1..];
    }
  }

  lemma {:induction false} SpanOf(a: string, d: char, rest: string)
    requires d !in a
    ensures Span(a + [d] + rest, d) == |a| == Span(a, d)
  {
    var s := a + [d] + rest;
    if a != "" {
      SpanOf(a[1..], d, rest);
      assert s[1..] == a[1..] + [d] + rest;
    }
  }

  lemma SplitCons(a: string, d: char, rest: string)
    requires d !in a
    ensures Split(a + [d] + rest, d) == [a] + Split(rest, d)
    ensures Split(a, d) == [a]
  {
    var s := a + [d] + rest;
    SpanOf(a, d, rest);
    hide Span;
    assert s[..|a|] == a && s[|a| + 1..] == rest;
  }

  /** The fields of a text are the only delimiter-free ones that it joins. */
  lemma {:induction false} SplitJoin(f: seq<string>, d: char)
    requires f != [] && forall i | 0 <= i < |f| :: d !in f[i]
    ensures Split(Join(f, d), d) == f
  {
    if |f| == 1 {
      hide Split;
      SplitCons(f[0], d, "");
    } else {
      SplitJoin(f[1..], d);
      hide Split, Join;
      JoinCons(f[0], f[1..], d);
      assert f == [f[0]] + f[1..];
      SplitCons(f[0], d, Join(f[1..], d));
    }
  }

  /* ------------------------------- strtok_save ----------------------------- */

  /** What a call returns while `rest` is the text at the saved pointer. */
  function Head(rest: string, d: char): Option<string> {
    if rest == "" || rest[0] == d then None else Some(rest[..Span(rest, d)])
  }

  /** The text at the saved pointer afterwards. */
  function Tail(rest: string, d: char): string {
    var n := Span(rest, d);
    if n == |rest| then "" else rest[n + 1..]
  }

  /** What call number `n` returns. */
  function Token(rest: string, d: char, n: nat): Option<string>
    decreases n
  {
    if n == 0 then Head(rest, d) else Token(Tail(rest, d), d, n - 1)
  }

  function Field(f: seq<string>, n: nat): Option<string> {
    if n < |f| && f[n] != "" then Some(f[n]) else None
  }

  lemma FieldTail(s: string, d: char, n: nat)
    ensures Field(Split(Tail(s, d), d), n) == Field(Split(s, d), n + 1)
  {
    var k := Span(s, d);
    if k == |s| {
      assert Split("", d) == [""];
    }
  }

  lemma HeadIsField(s: string, d: char)
    ensures Head(s, d) == Field(Split(s, d), 0)
  {
    var k := Span(s, d);
    assert k == |s| ==> s[..k] == s;
  }

  /** Successive calls enumerate the fields, with NULL for an empty one and past the last. */
  lemma {:induction false} TokensAreFields(s: string, d: char, n: nat)
    ensures Token(s, d, n) == Field(Split(s, d), n)
    decreases n
  {
    hide Head, Span, Split, Tail, Field;
    if n == 0 {
      HeadIsField(s, d);
    } else {
      TokensAreFields(Tail(s, d), d, n - 1);
      FieldTail(s, d, n - 1);
    }
  }

  /** The C string at position `i` of a buffer. */
  function CString(b: seq<char>, i: nat): string
    decreases |b| - i
  {
    if i >= |b| || b[i] == '\0' then "" else [b[i]] + CString(b, i + 1)
  }

  lemma {:induction false} CStringIs(b: seq<char>, i: nat, s: string)
    requires i + |s| < |b| && b[i..i + |s|] == s && '\0' !in s && b[i + |s|] == '\0'
    ensures CString(b, i) == s
    decreases |s|
  {
    if s != "" {
      assert b[i] == s[0];
      CStringIs(b, i + 1, s[1..]);
    }
  }

  lemma {:induction false} CStringFacts(b: seq<char>, i: nat)
    requires i < |b| && b[|b| - 1] == '\0'
    ensures var s := CString(b, i);
            i + |s| < |b| && b[i..i + |s|] == s && '\0' !in s && b[i + |s|] == '\0'
    decreases |b| - i
  {
    if b[i] != '\0' {
      CStringFacts(b, i + 1);
      var t := CString(b, i + 1);
      assert b[i..i + |t| + 1] == [b[i]] + b[i + 1..i + 1 + |t|];
    }
  }

  datatype Pointer = Null | At(pos: nat) | Wild

  function Bumped(p: Pointer): Pointer { if p.At? then At(p.pos + 1) else Wild }

  /** A call on the text at `start` of `b` returns its first field, leaves the text after it at
      `save`, and writes nothing from there on. */
  ghost predicate Advanced(b: seq<char>, start: nat, d: char, after: seq<char>, token: Pointer, save: nat) {
    var rest := CString(b, start);
    && |after| == |b| && start <= save < |b|
    && CString(after, save) == Tail(rest, d)
    && token == (if Head(rest, d) == None then Null else At(start))
    && (token.At? ==>
          && CString(after, start) == Head(rest, d).value
          && save == start + Span(rest, d) + if Span(rest, d) < |rest| then 1 else 0)
    && forall i | 0 <= i < |b| && (i < start || save <= i) :: after[i] == b[i]
  }

  lemma NothingLeft(b: seq<char>, start: nat, d: char)
    requires start < |b| && b[start] == '\0'
    ensures Advanced(b, start, d, b, Null, start)
  {
  }

  lemma EndReached(b: seq<char>, start: nat, d: char, end: nat)
    requires start < end < |b| && b[|b| - 1] == '\0' && b[end] == '\0' && b[start] != d && b[start] != '\0'
    requires Span(CString(b, start), d) == end - start
    requires '\0' !in CString(b, start) && d != '\0'
    ensures Advanced(b, start, d, b, At(start), end)
  {
    CStringFacts(b, start);
    var rest := CString(b, start);
    assert forall k | 0 <= k < |rest| :: rest[k] == b[start + k] && rest[k] != '\0';
    assert rest[..end - start] == rest;
  }

  /** A part of a C string that a NUL is written behind, or that starts behind one. */
  lemma CStringPart(b: seq<char>, start: nat, i: nat, j: nat, after: seq<char>)
    requires start < |b| && b[|b| - 1] == '\0' && |after| == |b|
    requires i <= j <= |CString(b, start)|
    requires start + j < |b| && after[start + j] == '\0'
    requires forall k | start + i <= k < start + j :: after[k] == b[k]
    ensures CString(after, start + i) == CString(b, start)[i..j]
  {
    var rest := CString(b, start);
    CStringFacts(b, start);
    hide CString;
    assert start + |rest| < |b|;
    forall k | 0 <= k < j - i
      ensures after[start + i..start + j][k] == rest[i..j][k] && rest[i..j][k] in rest
    {
      assert rest[i + k] == b[start..start + |rest|][i + k] == b[start + i + k];
    }
    assert after[start + i..start + j] == rest[i..j];
    assert start + i + |rest[i..j]| == start + j;
    assert '\0' !in rest[i..j];
    CStringIs(after, start + i, rest[i..j]);
  }

  lemma DelimiterCut(b: seq<char>, start: nat, d: char, end: nat)
    requires start < end < |b| && b[|b| - 1] == '\0' && b[end] == d != '\0' && b[start] != d && b[start] != '\0'
    requires end - start < |CString(b, start)| && Span(CString(b, start), d) == end - start
    ensures end + 1 < |b| && Advanced(b, start, d, b[end := '\0'], At(start), end + 1)
  {
    var rest := CString(b, start);
    var n := end - start;
    CStringFacts(b, start);
    FirstChar(b, start);
    hide CString, Span;
    var after := b[end := '\0'];
    CStringPart(b, start, 0, n, after);
    assert rest[0..n] == rest[..n];
    CStringPart(b, start, n + 1, |rest|, after);
    assert rest[n + 1..|rest|] == rest[n + 1..];
  }

  lemma FirstChar(b: seq<char>, start: nat)
    requires start < |b| && b[start] != '\0'
    ensures CString(b, start) != "" && CString(b, start)[0] == b[start]
  {
  }

  lemma EmptyField(b: seq<char>, start: nat, d: char)
    requires start < |b| && b[start] == d != '\0' && b[|b| - 1] == '\0'
    ensures Advanced(b, start, d, b, Null, start + 1)
  {
    var rest := CString(b, start);
    assert rest == [d] + CString(b, start + 1);
    assert rest[1..] == CString(b, start + 1);
  }

  /** A buffer that is tokenized in place and the `saveptr` that goes with it. */
  class Tokenizer {
    const buf: array<char>
    var save: Pointer

    ghost predicate Terminated()
      reads buf
    {
      buf.Length > 0 && buf[buf.Length - 1] == '\0'
    }

    constructor (buf: array<char>)
      ensures this.buf == buf && save == Null
    {
      this.buf, save := buf, Null;
    }

    /** `strcspn` */
    method FindEnd(start: nat, d: char) returns (end: nat)
      requires Terminated() && d != '\0' && start < buf.Length && buf[start] != d && buf[start] != '\0'
      ensures start < end < buf.Length && (buf[end] == '\0' || buf[end] == d)
      ensures var rest := CString(buf[..], start);
              Span(rest, d) == end - start && '\0' !in rest && (buf[end] == d ==> end - start < |rest|)
    {
      ghost var rest := CString(buf[..], start);
      CStringFacts(buf[..], start);
      FirstChar(buf[..], start);
      hide CString, Span;
      assert forall k | 0 <= k < |rest| :: rest[k] == buf[..][start..start + |rest|][k];
      end := start;
      while buf[end] != '\0' && buf[end] != d
        invariant start <= end <= start + |rest| && d !in rest[..end - start]
        decreases |rest| + start - end
      {
        assert rest[..end + 1 - start] == rest[..end - start] + [rest[end - start]];
        end := end + 1;
      }
      SpanIs(rest, d, end - start);
    }

    /** `strtok_r` on a text that does not start with the delimiter. */
    method Cut(start: nat, d: char) returns (token: Pointer)
      requires Terminated() && d != '\0' && start < buf.Length && buf[start] != d
      modifies this, buf
      ensures Terminated() && save.At?
      ensures Advanced(old(buf[..]), start, d, buf[..], token, save.pos)
    {
      hide CString, Span, Head, Tail, Advanced;
      ghost var b := buf[..];
      if buf[start] == '\0' {
        save, token := At(start), Null;
        NothingLeft(b, start, d);
        return;
      }
      var end := FindEnd(start, d);
      token := At(start);
      if buf[end] == '\0' {
        save := At(end);
        EndReached(b, start, d, end);
      } else {
        buf[end] := '\0';
        save := At(end + 1);
        assert buf[..] == b[end := '\0'];
        DelimiterCut(b, start, d, end);
      }
    }

    /** `strtok_save`: with a text that starts with the delimiter the pointer of an earlier
        text is moved; otherwise an empty field is reported as NULL. */
    method StrtokSave(str: Pointer, d: char) returns (token: Pointer)
      requires Terminated() && d != '\0' && str != Wild
      requires str.At? ==> str.pos < buf.Length
      requires str == Null ==> save.At? && save.pos < buf.Length
      modifies this, buf
      ensures Terminated()
      ensures str.At? && old(buf[str.pos]) == d ==>
                token == Null && save == Bumped(old(save)) && buf[..] == old(buf[..])
      ensures !(str.At? && old(buf[str.pos]) == d) ==>
                save.At? && Advanced(old(buf[..]), (if str.At? then str else old(save)).pos, d, buf[..], token, save.pos)
    {
      var tmp := if str.At? then str.pos else save.pos;
      if buf[tmp] == d {
        save := Bumped(save);
        EmptyField(buf[..], tmp, d);
        return Null;
      }
      token := Cut(tmp, d);
    }
  }

  /* ------------------------------- numbers --------------------------------- */

  function Digit(n: nat): char
    requires n < 10
  {
    ((n + 48) as char)
  }

  function Dec(n: nat): string {
    if n < 10 then [Digit(n)] else Dec(n / 10) + [Digit(n % 10)]
  }

  /** `%d` */
  function Print(n: int): string { if n < 0 then "-" + Dec(-n) else Dec(n) }

  predicate IsDigit(c: char) { '0' <= c <= '9' }

  function Digits(s: string, acc: nat): nat {
    if s != "" && IsDigit(s[0]) then Digits(s[1..], 10 * acc + (s[0] as int - 48)) else acc
  }

  predicate IsSpace(c: char) { c == ' ' || 9 <= c as int <= 13 }

  /** `atoi` and `sscanf` with `%d`: white space, a sign, and the digits up to the first other character. */
  function Atoi(s: string): int {
    if s == "" then 0
    else if IsSpace(s[0]) then Atoi(s[1..])
    else if s[0] == '-' then -(Digits(s[1..], 0) as int)
    else if s[0] == '+' then Digits(s[1..], 0)
    else Digits(s, 0)
  }

  predicate AllDigits(s: string) { forall i | 0 <= i < |s| :: IsDigit(s[i]) }

  lemma {:induction false} DecIsDigits(n: nat)
    ensures Dec(n) != "" && AllDigits(Dec(n))
  {
    if n >= 10 {
      DecIsDigits(n / 10);
    }
  }

  lemma {:induction false} DigitsSnoc(s: string, c: char, acc: nat)
    requires AllDigits(s) && IsDigit(c)
    ensures Digits(s + [c], acc) == 10 * Digits(s, acc) + (c as int - 48)
    decreases |s|
  {
    if s == "" {
      assert (s + [c])[1..] == "";
    } else {
      assert (s + [c])[1..] == s[1..] + [c];
      DigitsSnoc(s[1..], c, 10 * acc + (s[0] as int - 48));
    }
  }

  lemma {:induction false} DigitsOfDec(n: nat)
    ensures Digits(Dec(n), 0) == n
  {
    if n < 10 {
      assert Dec(n)[1..] == "";
    } else {
      DigitsOfDec(n / 10);
      DecIsDigits(n / 10);
      DigitsSnoc(Dec(n / 10), Digit(n % 10), 0);
    }
  }

  /** A printed number is read back, and is a field of its own. */
  lemma AtoiOfPrint(n: int)
    ensures Atoi(Print(n)) == n && Print(n) != "" && ';' !in Print(n) && '\0' !in Print(n)
  {
    var m := if n < 0 then -n else n;
    DecIsDigits(m);
    DigitsOfDec(m);
    hide Dec, Digits;
    assert IsDigit(Dec(m)[0]);
    assert n < 0 ==> Print(n)[1..] == Dec(m) && Print(n)[0] == '-';
  }

  /* ------------------------------- packets --------------------------------- */

  const MESSAGE_LENGTH := 4096
  const API_VERSION := "2.2"
  const FROM_SERVER := 2
  const FROM_GUI := 3
  const FROM_GATEWAY := 6
  const REQUEST_TO_JOIN := 1
  const JOIN_RESPONSE := 2
  const TIME_CRITICAL_TRACKED_OBJECT_DATA := 3
  const TRACKED_OBJECT_DATA := 4
  const GATEWAY_HEALTH_REPORT := 5
  const BEACON_HEALTH_REPORT := 6
  const IPC_COMMAND := 8

  datatype Packet = Packet(direction: int, kind: int, version: string, content: string)

  /** What `Server_process_wifi_send` sends for a node. */
  function Frame(direction: int, kind: int, content: string): string {
    Print(direction) + [';'] + (Print(kind) + [';'] + (API_VERSION + [';'] + content))
  }

  /** What the fields of a received text mean; a packet without three first fields is dropped. */
  function Unframe(s: string): Option<Packet> {
    var f := Split(s, ';');
    if Field(f, 0) == None || Field(f, 1) == None || Field(f, 2) == None then None
    else Some(Packet(Atoi(f[0]), Atoi(f[1]), f[2], Join(f[3..], ';')))
  }

  lemma FrameFields(direction: int, kind: int, content: string)
    ensures Split(Frame(direction, kind, content), ';') ==
            [Print(direction), Print(kind), API_VERSION] + Split(content, ';')
  {
    AtoiOfPrint(direction);
    AtoiOfPrint(kind);
    hide Split, Print;
    SplitCons(Print(direction), ';', Print(kind) + [';'] + (API_VERSION + [';'] + content));
    SplitCons(Print(kind), ';', API_VERSION + [';'] + content);
    SplitCons(API_VERSION, ';', content);
  }

  /** A framed message is read back as it was, whatever its content. */
  lemma FrameRoundTrip(direction: int, kind: int, content: string)
    ensures Unframe(Frame(direction, kind, content)) == Some(Packet(direction, kind, API_VERSION, content))
  {
    FrameFields(direction, kind, content);
    AtoiOfPrint(direction);
    AtoiOfPrint(kind);
    JoinSplit(content, ';');
    var f := Split(Frame(direction, kind, content), ';');
    hide Split, Print, Join, Atoi, Frame;
    assert f[3..] == Split(content, ';');
  }

  predicate IsField(a: string) { a != "" && ';' !in a }

  /** The text is three fields, and `rest` behind a further delimiter if it goes on. */
  ghost predicate Frames(s: string, a: string, b: string, c: string, rest: string) {
    && IsField(a) && IsField(b) && IsField(c)
    && (s == a + [';'] + (b + [';'] + (c + [';'] + rest)) || (s == a + [';'] + (b + [';'] + c) && rest == ""))
  }

  lemma {:induction false} SplitIsFree(s: string, d: char)
    ensures forall i | 0 <= i < |Split(s, d)| :: d !in Split(s, d)[i]
  {
    var n := Span(s, d);
    if n < |s| { SplitIsFree(s[n + 1..], d); }
  }

  /** A text of three fields is read as their values, with the rest as its content. */
  lemma UnframeReads(s: string, a: string, b: string, c: string, rest: string)
    requires Frames(s, a, b, c, rest)
    ensures Unframe(s) == Some(Packet(Atoi(a), Atoi(b), c, rest))
  {
    var more := if s == a + [';'] + (b + [';'] + (c + [';'] + rest)) then Split(rest, ';') else [];
    JoinSplit(rest, ';');
    hide Split, Join, Atoi;
    SplitCons(a, ';', b + [';'] + (c + [';'] + rest));
    SplitCons(b, ';', c + [';'] + rest);
    SplitCons(c, ';', rest);
    SplitCons(a, ';', b + [';'] + c);
    SplitCons(b, ';', c);
    var f := Split(s, ';');
    assert f == [a, b, c] + more;
    assert f[3..] == more;
    assert Join(more, ';') == rest by { NothingJoined(';'); }
  }

  lemma NothingJoined(d: char)
    ensures Join([], d) == ""
  {
  }

  /** And no other text is read. */
  lemma UnframeFinds(s: string) returns (a: string, b: string, c: string, rest: string)
    requires Unframe(s).Some?
    ensures Frames(s, a, b, c, rest)
  {
    var f := Split(s, ';');
    SplitIsFree(s, ';');
    JoinSplit(s, ';');
    hide Split, Join, Atoi;
    a, b, c, rest := f[0], f[1], f[2], Join(f[3..], ';');
    assert f == [a] + ([b] + ([c] + f[3..]));
    if f[3..] == [] {
      assert f == [a] + ([b] + [c]);
      NothingJoined(';');
      JoinCons(b, [c], ';');
      JoinCons(c, [a], ';');
      JoinCons(a, [b] + [c], ';');
    } else {
      JoinCons(c, f[3..], ';');
      JoinCons(b, [c] + f[3..], ';');
      JoinCons(a, [b] + ([c] + f[3..]), ';');
    }
  }

  lemma TailJoin(s: string, d: char)
    ensures Join(Split(s, d)[1..], d) == Tail(s, d)
    ensures Span(s, d) < |s| ==> Split(s, d)[1..] == Split(Tail(s, d), d)
    ensures Span(s, d) == |s| ==> Split(s, d)[1..] == []
  {
    JoinSplit(Tail(s, d), d);
  }

  /** The tokens of a text with three first fields, and what is left behind them. */
  lemma ThreeFields(s: string)
    ensures var u, f := Tail(s, ';'), Split(s, ';');
            var v := Tail(u, ';');
            && Head(s, ';') == Field(f, 0) && Head(u, ';') == Field(f, 1) && Head(v, ';') == Field(f, 2)
            && (Field(f, 2) != None ==> Tail(v, ';') == Join(f[3..], ';'))
  {
    TokensAreFields(s, ';', 0);
    TokensAreFields(s, ';', 1);
    TokensAreFields(s, ';', 2);
    var u := Tail(s, ';');
    var v := Tail(u, ';');
    assert Token(s, ';', 1) == Token(u, ';', 0) && Token(s, ';', 2) == Token(u, ';', 1) == Token(v, ';', 0);
    TailJoin(s, ';');
    TailJoin(u, ';');
    TailJoin(v, ';');
    hide Join, Split, Span, Tail;
    var f := Split(s, ';');
    if |f| >= 3 {
      assert f[3..] == f[1..][1..][1..];
    }
  }

  lemma NothingBehind(b: seq<char>, i: nat)
    ensures i < |b| && b[i] == '\0' ==> CString(b, i) == ""
  {
  }

  /** One field: the call and a look at what it returned. */
  method ReadField(t: Tokenizer, str: Pointer, ghost start: nat) returns (r: Option<string>)
    requires t.Terminated() && str != Wild && (if str.At? then str else t.save) == At(start) && start < t.buf.Length
    modifies t, t.buf
    ensures t.Terminated()
    ensures r == Head(old(CString(t.buf[..], start)), ';')
    ensures r != None || str == Null ==>
              var rest := old(CString(t.buf[..], start));
              && t.save.At? && start <= t.save.pos < t.buf.Length && CString(t.buf[..], t.save.pos) == Tail(rest, ';')
              && (r != None ==> t.save.pos == start + |r.value| + if |r.value| < |rest| then 1 else 0)
              && forall i | t.save.pos <= i < t.buf.Length :: t.buf[i] == old(t.buf[i])
  {
    LeadingDelimiter(t.buf[..], start);
    var token := t.StrtokSave(str, ';');
    if token == Null { return None; }
    return Some(CString(t.buf[..], token.pos));
  }

  lemma LeadingDelimiter(b: seq<char>, start: nat)
    requires start < |b|
    ensures b[start] == ';' ==> CString(b, start) != "" && CString(b, start)[0] == ';'
  {
  }

  /** The parsing part of `Server_process_wifi_receive`: the rest of the message is found by
      adding up the lengths of the fields. */
  method ParsePacket(s: string) returns (r: Option<Packet>)
    requires '\0' !in s && |s| + 2 <= MESSAGE_LENGTH
    ensures r == Unframe(s)
  {
    ThreeFields(s);
    hide Split, Join, Atoi, Span, CString, Head, Tail;
    var buf := new char[MESSAGE_LENGTH](i requires i >= 0 => if i < |s| then s[i] else '\0');
    assert buf[0..|s|] == s;
    CStringIs(buf[..], 0, s);
    var t := new Tokenizer(buf);
    var direction := ReadField(t, At(0), 0);
    if direction == None { return None; }
    var remain := |direction.value| + 1;
    SpanTail(s, ';');
    var kind := ReadField(t, Null, t.save.pos);
    if kind == None { return None; }
    remain := remain + |kind.value| + 1;
    SpanTail(Tail(s, ';'), ';');
    var version := ReadField(t, Null, t.save.pos);
    if version == None { return None; }
    remain := remain + |version.value| + 1;
    SpanTail(Tail(Tail(s, ';'), ';'), ';');
    NothingBehind(buf[..], remain);
    r := Some(Packet(Atoi(direction.value), Atoi(kind.value), version.value, CString(buf[..], remain)));
  }

  lemma SpanTail(s: string, d: char)
    ensures Head(s, d) != None ==>
              var n := |Head(s, d).value|;
              n <= |s| && (if n < |s| then |Tail(s, d)| == |s| - n - 1 else Tail(s, d) == "")
    ensures Head("", d) == None
  {
  }

  /* ------------------------------- commands -------------------------------- */

  const CMD_RELOAD := 1
  const GEO_FENCE_ALL := 1
  const GEO_FENCE_LIST := 2
  const GEO_FENCE_OBJECT := 3
  const AREA_ALL := 1
  const AREA_ONE := 2

  /** What the IPC tool sends, if it gets that far.  An unknown command prints an error message
      and then sends an empty one. */
  function FormatCommand(command: int, setting: int, scope: int, area: int): Option<string> {
    if command == CMD_RELOAD then
      if setting <= 0 then None
      else if scope == AREA_ALL && area == -1 then
        Some(Join([Print(FROM_GUI), Print(IPC_COMMAND), API_VERSION, Print(command), Print(setting), Print(scope), ""], ';'))
      else if scope == AREA_ONE && area > 0 then
        Some(Join([Print(FROM_GUI), Print(IPC_COMMAND), API_VERSION, Print(command), Print(setting), Print(scope), Print(area), ""], ';'))
      else None
    else Some("")
  }

  datatype Command = Command(command: int, setting: int, scope: int, area: int)

  /** A list to be loaded again, for one area or for all of them. */
  datatype Action = ReloadFences(area: Option<int>) | ReloadObjects(area: Option<int>)

  /** A field as a number; 0 for one that is missing. */
  function Number(f: seq<string>, n: nat): int {
    if Field(f, n) == None then 0 else Atoi(f[n])
  }

  function Decode(f: seq<string>): Command {
    var scope := Number(f, 2);
    Command(Number(f, 0), Number(f, 1), scope, if scope == AREA_ONE then Number(f, 3) else 0)
  }

  function Target(c: Command): Option<Option<int>> {
    if c.scope == AREA_ALL then Some(None)
    else if c.scope == AREA_ONE && c.area > 0 then Some(Some(c.area))
    else None
  }

  function ReloadActions(c: Command): seq<Action> {
    if c.command != CMD_RELOAD || Target(c) == None then []
    else
      (if c.setting == GEO_FENCE_ALL || c.setting == GEO_FENCE_LIST then [ReloadFences(Target(c).value)] else []) +
      (if c.setting == GEO_FENCE_ALL || c.setting == GEO_FENCE_OBJECT then [ReloadObjects(Target(c).value)] else [])
  }

  /** What a command message makes the server do. */
  function Actions(content: string): seq<Action> {
    var f := Split(content, ';');
    if Field(f, 0) == None || Atoi(f[0]) != CMD_RELOAD then [] else ReloadActions(Decode(f))
  }

  function NumberOf(field: Option<string>): int { if field == None then 0 else Atoi(field.value) }

  /** The tokens of a command are its fields. */
  lemma FourFields(s: string)
    ensures var t1 := Tail(s, ';');
            var t2 := Tail(t1, ';');
            var t3, f := Tail(t2, ';'), Split(s, ';');
            && NumberOf(Head(s, ';')) == Number(f, 0) && NumberOf(Head(t1, ';')) == Number(f, 1)
            && NumberOf(Head(t2, ';')) == Number(f, 2) && NumberOf(Head(t3, ';')) == Number(f, 3)
  {
    TokensAreFields(s, ';', 0);
    TokensAreFields(s, ';', 1);
    TokensAreFields(s, ';', 2);
    TokensAreFields(s, ';', 3);
    hide Head, Tail, Split, Atoi;
    var t1 := Tail(s, ';');
    var t2 := Tail(t1, ';');
    assert Token(s, ';', 1) == Token(t1, ';', 0);
    assert Token(s, ';', 2) == Token(t1, ';', 1) == Token(t2, ';', 0);
    assert Token(s, ';', 3) == Token(t1, ';', 2) == Token(t2, ';', 1) == Token(Tail(t2, ';'), ';', 0);
  }

  /** A buffer of the size of a message that holds the text `s`. */
  method BufferOf(s: string) returns (t: Tokenizer)
    requires '\0' !in s && |s| < MESSAGE_LENGTH
    ensures fresh(t) && fresh(t.buf) && t.Terminated() && t.save == Null
    ensures CString(t.buf[..], 0) == s
  {
    var buf := new char[MESSAGE_LENGTH](i requires i >= 0 => if i < |s| then s[i] else '\0');
    assert buf[0..|s|] == s;
    CStringIs(buf[..], 0, s);
    t := new Tokenizer(buf);
  }

  /** `reload_geo_fence_settings`, without the loading. */
  method ReloadSettings(content: string) returns (actions: seq<Action>)
    requires '\0' !in content && |content| < MESSAGE_LENGTH && (content == "" || content[0] != ';')
    ensures actions == ReloadActions(Decode(Split(content, ';')))
  {
    FourFields(content);
    hide Head, Tail, Span, Split, CString, Atoi, Number;
    var command, setting, scope, area := 0, 0, 0, 0;
    var t := BufferOf(content);
    StartIsSafe(t.buf[..], content);
    var field := ReadText(t, At(0), 0);
    if field != None { command := Atoi(field.value); }
    field := ReadText(t, Null, t.save.pos);
    if field != None { setting := Atoi(field.value); }
    field := ReadText(t, Null, t.save.pos);
    if field != None { scope := Atoi(field.value); }
    if scope == AREA_ONE {
      field := ReadText(t, Null, t.save.pos);
      if field != None { area := Atoi(field.value); }
    }
    actions := [];
    if command == CMD_RELOAD {
      if setting == GEO_FENCE_ALL || setting == GEO_FENCE_LIST {
        if scope == AREA_ALL {
          actions := actions + [ReloadFences(None)];
        } else if scope == AREA_ONE && area > 0 {
          actions := actions + [ReloadFences(Some(area))];
        }
      }
      if setting == GEO_FENCE_ALL || setting == GEO_FENCE_OBJECT {
        if scope == AREA_ALL {
          actions := actions + [ReloadObjects(None)];
        } else if scope == AREA_ONE && area > 0 {
          actions := actions + [ReloadObjects(Some(area))];
        }
      }
    }
  }

  lemma StartIsSafe(b: seq<char>, s: string)
    requires b != [] && CString(b, 0) == s && (s == "" || s[0] != ';')
    ensures b[0] != ';'
  {
  }

  /** A field of a text that does not start with the delimiter. */
  method ReadText(t: Tokenizer, str: Pointer, ghost start: nat) returns (r: Option<string>)
    requires t.Terminated() && str != Wild && (if str.At? then str else t.save) == At(start) && start < t.buf.Length
    requires str == Null || t.buf[start] != ';'
    modifies t, t.buf
    ensures t.Terminated()
    ensures var rest := old(CString(t.buf[..], start));
            && r == Head(rest, ';')
            && t.save.At? && t.save.pos < t.buf.Length && CString(t.buf[..], t.save.pos) == Tail(rest, ';')
  {
    hide CString, Head, Tail, Span;
    var token := t.StrtokSave(str, ';');
    if token == Null { return None; }
    return Some(CString(t.buf[..], token.pos));
  }

  /** `process_commands`, whose first look at the command is on a copy of the content. */
  method ProcessCommands(content: string) returns (actions: seq<Action>)
    requires '\0' !in content && |content| < MESSAGE_LENGTH
    ensures actions == Actions(content)
  {
    HeadIsField(content, ';');
    var t := BufferOf(content);
    var command := ReadField(t, At(0), 0);
    if command != None {
      hide Split, ReloadActions, Decode;
      match Atoi(command.value)
      case 1 => actions := ReloadSettings(content);
      case _ => actions := [];
    } else {
      actions := [];
    }
  }

  /** Which lists a command message has loaded again, and for which area: the first field is 1,
      the second says which lists, the third and fourth say which area. */
  lemma LoadsIff(content: string, area: Option<int>)
    ensures var f := Split(content, ';');
            var asked := Number(f, 0) == 1 &&
                         ((Number(f, 2) == 1 && area == None) || (Number(f, 2) == 2 && Number(f, 3) > 0 && area == Some(Number(f, 3))));
            && (ReloadFences(area) in Actions(content) <==> asked && Number(f, 1) in {1, 2})
            && (ReloadObjects(area) in Actions(content) <==> asked && Number(f, 1) in {1, 3})
            && |Actions(content)| <= 2
  {
    hide Split, Atoi;
  }

  /** The lists that a user asks for. */
  function Wanted(setting: int, target: Option<int>): seq<Action> {
    (if setting != GEO_FENCE_OBJECT then [ReloadFences(target)] else []) +
    (if setting != GEO_FENCE_LIST then [ReloadObjects(target)] else [])
  }

  /** A command that the tool accepts arrives as a command message that is decoded as it was
      entered, and loads what was asked for. */
  lemma CommandRoundTrip(setting: int, scope: int, area: int)
    requires 0 < setting && ((scope == AREA_ALL && area == -1) || (scope == AREA_ONE && area > 0))
    ensures var text := FormatCommand(CMD_RELOAD, setting, scope, area);
            && text != None && Unframe(text.value).Some?
            && var p := Unframe(text.value).value;
               && p.direction == FROM_GUI && p.kind == IPC_COMMAND && p.version == API_VERSION
               && Decode(Split(p.content, ';')) == Command(CMD_RELOAD, setting, scope, if scope == AREA_ONE then area else 0)
               && (setting <= GEO_FENCE_OBJECT ==>
                     Actions(p.content) == Wanted(setting, if scope == AREA_ONE then Some(area) else None))
  {
    AtoiOfPrint(FROM_GUI);
    AtoiOfPrint(IPC_COMMAND);
    AtoiOfPrint(CMD_RELOAD);
    AtoiOfPrint(setting);
    AtoiOfPrint(scope);
    AtoiOfPrint(area);
    hide Print, Atoi, Split, Join;
    var body := [Print(CMD_RELOAD), Print(setting), Print(scope)] + if scope == AREA_ONE then [Print(area), ""] else [""];
    var f := [Print(FROM_GUI), Print(IPC_COMMAND), API_VERSION] + body;
    assert f == if scope == AREA_ONE
                then [Print(FROM_GUI), Print(IPC_COMMAND), API_VERSION, Print(CMD_RELOAD), Print(setting), Print(scope), Print(area), ""]
                else [Print(FROM_GUI), Print(IPC_COMMAND), API_VERSION, Print(CMD_RELOAD), Print(setting), Print(scope), ""];
    SplitJoin(f, ';');
    assert f[3..] == body;
    SplitJoin(body, ';');
  }

  /** The empty message of an unknown command is dropped by the server. */
  lemma UnknownCommandIsDropped(command: int, setting: int, scope: int, area: int)
    requires command != CMD_RELOAD
    ensures FormatCommand(command, setting, scope, area) == Some("") && Unframe("") == None
  {
    assert Split("", ';') == [""];
  }

  /** The tool sends a reload command exactly for a positive setting together with all areas and
      no area number, or with one area and a positive number. */
  lemma CommandSentIff(setting: int, scope: int, area: int)
    ensures FormatCommand(CMD_RELOAD, setting, scope, area) != None <==>
            setting > 0 && ((scope == 1 && area == -1) || (scope == 2 && area > 0))
  {
  }

  /** The tool's messages are different for different requests. */
  lemma CommandsDiffer(setting: int, scope: int, area: int, setting': int, scope': int, area': int)
    requires 0 < setting && ((scope == AREA_ALL && area == -1) || (scope == AREA_ONE && area > 0))
    requires 0 < setting' && ((scope' == AREA_ALL && area' == -1) || (scope' == AREA_ONE && area' > 0))
    requires FormatCommand(CMD_RELOAD, setting, scope, area) == FormatCommand(CMD_RELOAD, setting', scope', area')
    ensures setting == setting' && scope == scope' && area == area'
  {
    CommandRoundTrip(setting, scope, area);
    CommandRoundTrip(setting', scope', area');
    hide Unframe, FormatCommand, Decode, Split;
  }
}
