/** Query fingerprinting: literals become `?`, whitespace runs become one space.

    `Fingerprinter` is the index-driven scanner of the proxy; `Fp` is the same scan
    written token by token over the remaining input, and the theorems are about `Fp`. */
module Fingerprint {

  /** One byte of the query text, written as the character with that code. */
  type Byte = c: char | c as int < 256

  predicate IsDigit(c: Byte) { '0' <= c <= '9' }

  /** Bytes after which a digit belongs to an identifier (`t1`, `_2`). */
  predicate IsIdent(c: Byte) { IsDigit(c) || 'a' <= c <= 'z' || 'A' <= c <= 'Z' || c == '_' }

  /** `u8::is_ascii_whitespace`: space, tab, newline, form feed, carriage return. */
  predicate IsSpace(c: Byte) { c == ' ' || c == '\t' || c == '\n' || c == '\r' || c as int == 12 }

  /** The bytes that start a whitespace token; a leading form feed is not one of them. */
  predicate StartsSpace(c: Byte) { c == ' ' || c == '\t' || c == '\n' || c == '\r' }

  predicate IsNumberPart(c: Byte) {
    IsDigit(c) || c == '.' || c == 'x' || c == 'X' || c == '+' || c == '-' || 'a' <= c <= 'f' || 'A' <= c <= 'F'
  }

  predicate HasSpace(t: seq<Byte>) { exists k :: 0 <= k < |t| && IsSpace(t[k]) }

  /** Pushing a byte as a `char` onto a UTF-8 string: bytes from 128 up become two. */
  function Push(c: Byte): seq<Byte> {
    if c as int < 128 then [c]
    else [(0xC0 + c as int / 64) as char, (0x80 + c as int % 64) as char]
  }

  // ---------------------------------------------------------------- token specification

  /** What follows a single-quoted literal, given the input after its opening quote. */
  function SkipSingle(s: seq<Byte>): (r: seq<Byte>)
    ensures |r| <= |s|
  {
    if s == [] then []
    else if s[0] == '\\' then if |s| < 2 then [] else SkipSingle(s[2..])
    else if s[0] == '\'' then if |s| > 1 && s[1] == '\'' then SkipSingle(s[2..]) else s[1..]
    else SkipSingle(s[1..])
  }

  /** Length of a double-quoted token, given the input after its opening quote. */
  function DoubleLen(s: seq<Byte>): (n: nat)
    ensures n <= |s|
  {
    if s == [] then 0
    else if s[0] == '"' then if |s| > 1 && s[1] == '"' then 2 + DoubleLen(s[2..]) else 1
    else 1 + DoubleLen(s[1..])
  }

  function SkipNumber(s: seq<Byte>): (r: seq<Byte>)
    ensures |r| <= |s|
  {
    if s == [] || !IsNumberPart(s[0]) then s else SkipNumber(s[1..])
  }

  function SkipSpace(s: seq<Byte>): (r: seq<Byte>)
    ensures |r| <= |s|
    ensures r != [] ==> !IsSpace(r[0])
  {
    if s == [] || !IsSpace(s[0]) then s else SkipSpace(s[1..])
  }

  /** One token of the scan: what it adds to the result and the input left after it. */
  datatype Token = Token(out: seq<Byte>, rest: seq<Byte>)

  /** `ident` says whether the result so far ends in an identifier byte. */
  function Next(s: seq<Byte>, ident: bool): (t: Token)
    requires s != []
    ensures t.out != [] && |t.rest| < |s|
  {
    var c := s[0];
    if c == '\'' then Token(['?'], SkipSingle(s[1..]))
    else if c == '"' then
      var n := 1 + DoubleLen(s[1..]);
      Token(if HasSpace(s[..n]) then ['?'] else s[..n], s[n..])
    else if IsDigit(c) then
      if ident then Token([c], s[1..]) else Token(['?'], SkipNumber(s[1..]))
    else if StartsSpace(c) then Token([' '], SkipSpace(s[1..]))
    else Token(Push(c), s[1..])
  }

  predicate EndsIdent(out: seq<Byte>) { out != [] && IsIdent(out[|out| - 1]) }

  /** The fingerprint of `s` when it continues a result that does or does not end in an identifier. */
  function Fp(s: seq<Byte>, ident: bool): seq<Byte>
    decreases |s|
  {
    if s == [] then []
    else
      var t := Next(s, ident);
      t.out + Fp(t.rest, EndsIdent(t.out))
  }

  // ---------------------------------------------------------------- the scanner itself

  /** The input from position `i` on; the scan may step one past the end after a backslash. */
  function From(s: seq<Byte>, i: nat): seq<Byte> { if i <= |s| then s[i..] else [] }

  /** The scanner of the proxy: one index, nested loops, a growing result. */
  method Fingerprinter(sql: seq<Byte>) returns (result: seq<Byte>)
    ensures result == Fp(sql, false)
  {
    result := [];
    var len := |sql|;
    var i := 0;
    while i < len
      invariant 0 <= i <= len + 1
      invariant Fp(sql, false) == result + Fp(From(sql, i), EndsIdent(result))
      decreases len - i
    {
      ghost var s := sql[i..];
      var out;
      i, out := ScanToken(sql, i, result != [] && IsIdent(result[|result| - 1]));
      Advance(result, s, Token(out, From(sql, i)));
      result := result + out;
    }
  }

  lemma {:induction false} FpOfToken(s: seq<Byte>, ident: bool, t: Token)
    requires s != [] && Next(s, ident) == t
    ensures Fp(s, ident) == t.out + Fp(t.rest, EndsIdent(t.out))
  {
  }

  lemma {:induction false} Associative(a: seq<Byte>, b: seq<Byte>, c: seq<Byte>)
    ensures a + (b + c) == (a + b) + c
  {
  }

  lemma {:induction false} Advance(result: seq<Byte>, s: seq<Byte>, t: Token)
    requires s != [] && Next(s, EndsIdent(result)) == t
    ensures result + Fp(s, EndsIdent(result)) == (result + t.out) + Fp(t.rest, EndsIdent(result + t.out))
  {
    FpOfToken(s, EndsIdent(result), t);
    Associative(result, t.out, Fp(t.rest, EndsIdent(t.out)));
    assert (result + t.out)[|result + t.out| - 1] == t.out[|t.out| - 1];
  }

  /** The token by its first byte, with the rest of the scan left unopened. */
  lemma {:induction false} NextKinds(s: seq<Byte>, ident: bool)
    requires s != []
    ensures s[0] == '\'' ==> Next(s, ident) == Token(['?'], SkipSingle(s[1..]))
    ensures s[0] == '"' ==>
              var n := 1 + DoubleLen(s[1..]);
              Next(s, ident) == Token(if HasSpace(s[..n]) then ['?'] else s[..n], s[n..])
    ensures IsDigit(s[0]) ==> Next(s, ident) == if ident then Token([s[0]], s[1..]) else Token(['?'], SkipNumber(s[1..]))
    ensures StartsSpace(s[0]) ==> Next(s, ident) == Token([' '], SkipSpace(s[1..]))
    ensures s[0] != '\'' && s[0] != '"' && !IsDigit(s[0]) && !StartsSpace(s[0]) ==>
              Next(s, ident) == Token(Push(s[0]), s[1..])
  {
    hide SkipSingle, DoubleLen, SkipNumber, SkipSpace, HasSpace, Push;
  }

  lemma {:induction false} NextAt(sql: seq<Byte>, i: nat, ident: bool)
    requires i < |sql|
    ensures sql[i] == '\'' ==> Next(sql[i..], ident) == Token(['?'], SkipSingle(sql[i + 1..]))
    ensures sql[i] == '"' ==>
              var n := i + 1 + DoubleLen(sql[i + 1..]);
              Next(sql[i..], ident) == Token(if HasSpace(sql[i..n]) then ['?'] else sql[i..n], sql[n..])
    ensures IsDigit(sql[i]) ==>
              Next(sql[i..], ident) == if ident then Token([sql[i]], sql[i + 1..]) else Token(['?'], SkipNumber(sql[i + 1..]))
    ensures StartsSpace(sql[i]) ==> Next(sql[i..], ident) == Token([' '], SkipSpace(sql[i + 1..]))
    ensures sql[i] != '\'' && sql[i] != '"' && !IsDigit(sql[i]) && !StartsSpace(sql[i]) ==>
              Next(sql[i..], ident) == Token(Push(sql[i]), sql[i + 1..])
  {
    hide Next, SkipSingle, DoubleLen, SkipNumber, SkipSpace, HasSpace, Push, IsDigit, StartsSpace;
    assert sql[i..][0] == sql[i] && sql[i..][1..] == sql[i + 1..];
    NextKinds(sql[i..], ident);
    var n := DoubleLen(sql[i + 1..]);
    assert sql[i..][..1 + n] == sql[i..i + 1 + n] && sql[i..][1 + n..] == sql[i + 1 + n..];
  }

  lemma {:induction false} SpaceIsSpace(c: Byte)
    requires StartsSpace(c)
    ensures IsSpace(c) && !IsNumberPart(c)
  {
  }

  /** The `match` on the current byte: where the token ends and what it pushes. */
  method ScanToken(sql: seq<Byte>, start: nat, ident: bool) returns (i: nat, out: seq<Byte>)
    requires start < |sql|
    ensures start < i <= |sql| + 1
    ensures Next(sql[start..], ident) == Token(out, From(sql, i))
  {
    hide Next, SkipSingle, DoubleLen, SkipNumber, SkipSpace, HasSpace, Push, IsDigit, StartsSpace;
    NextAt(sql, start, ident);
    if sql[start] == '\'' {
      i := ScanSingle(sql, start + 1);
      out := ['?'];
    } else if sql[start] == '"' {
      var hasSpace;
      i, hasSpace := ScanDouble(sql, start + 1);
      out := if hasSpace then ['?'] else sql[start..i];
    } else if IsDigit(sql[start]) && ident {
      i, out := start + 1, [sql[start]];
    } else if IsDigit(sql[start]) {
      i := ScanNumber(sql, start);
      out := ['?'];
    } else if StartsSpace(sql[start]) {
      SpaceIsSpace(sql[start]);
      i := ScanSpace(sql, start);
      out := [' '];
    } else {
      i, out := start + 1, Push(sql[start]);
    }
  }

  method ScanNumber(sql: seq<Byte>, start: nat) returns (i: nat)
    requires start < |sql| && IsDigit(sql[start])
    ensures start < i <= |sql| && sql[i..] == SkipNumber(sql[start + 1..])
  {
    i := start;
    while i < |sql| && IsNumberPart(sql[i])
      invariant start <= i <= |sql|
      invariant i > start ==> SkipNumber(sql[start + 1..]) == SkipNumber(sql[i..])
    {
      assert sql[i..][1..] == sql[i + 1..];
      i := i + 1;
    }
  }

  method ScanSpace(sql: seq<Byte>, start: nat) returns (i: nat)
    requires start < |sql| && IsSpace(sql[start])
    ensures start < i <= |sql| && sql[i..] == SkipSpace(sql[start + 1..])
  {
    i := start;
    while i < |sql| && IsSpace(sql[i])
      invariant start <= i <= |sql|
      invariant i > start ==> SkipSpace(sql[start + 1..]) == SkipSpace(sql[i..])
    {
      assert sql[i..][1..] == sql[i + 1..];
      i := i + 1;
    }
  }

  method ScanSingle(sql: seq<Byte>, start: nat) returns (i: nat)
    requires start <= |sql|
    ensures start <= i <= |sql| + 1
    ensures From(sql, i) == SkipSingle(sql[start..])
  {
    assert From(sql, start) == sql[start..];
    hide SkipSingle, From;
    i := start;
    while i < |sql|
      invariant start <= i <= |sql| + 1
      invariant SkipSingle(sql[start..]) == SkipSingle(From(sql, i))
    {
      SkipSingleStep(sql, i);
      if sql[i] == '\\' {
        i := i + 2;
      } else if sql[i] == '\'' {
        if i + 1 < |sql| && sql[i + 1] == '\'' {
          i := i + 2;
        } else {
          i := i + 1;
          return;
        }
      } else {
        i := i + 1;
      }
    }
    FromEnd(sql, i);
    SkipSingleEnd();
  }

  lemma {:induction false} FromEnd(s: seq<Byte>, i: nat)
    requires i >= |s|
    ensures From(s, i) == []
  {
  }

  lemma {:induction false} SkipSingleEnd()
    ensures SkipSingle([]) == []
  {
  }

  lemma {:induction false} SkipSingleStep(s: seq<Byte>, i: nat)
    requires i < |s|
    ensures SkipSingle(From(s, i)) ==
            if s[i] == '\\' || (s[i] == '\'' && i + 1 < |s| && s[i + 1] == '\'') then SkipSingle(From(s, i + 2))
            else if s[i] == '\'' then From(s, i + 1)
            else SkipSingle(From(s, i + 1))
  {
    assert s[i..][1..] == s[i + 1..];
    if i + 1 < |s| { assert s[i..][2..] == s[i + 2..] && s[i..][1] == s[i + 1]; }
    SkipSingleEnd();
  }

  method ScanDouble(sql: seq<Byte>, start: nat) returns (i: nat, hasSpace: bool)
    requires 1 <= start <= |sql| && sql[start - 1] == '"'
    ensures i == start + DoubleLen(sql[start..])
    ensures hasSpace == HasSpace(sql[start - 1..i])
  {
    hide HasSpace, DoubleLen, IsSpace;
    i, hasSpace := start, false;
    HasSpaceSnoc(sql, start - 1, start - 1);
    assert !IsSpace('"') by { QuoteIsNoSpace(); }
    while i < |sql|
      invariant start <= i <= |sql|
      invariant start + DoubleLen(sql[start..]) == i + DoubleLen(sql[i..])
      invariant hasSpace == HasSpace(sql[start - 1..i])
    {
      HasSpaceSnoc(sql, start - 1, i);
      DoubleLenStep(sql, i);
      if sql[i] == '"' {
        if i + 1 < |sql| && sql[i + 1] == '"' {
          HasSpaceSnoc(sql, start - 1, i + 1);
          i := i + 2;
          continue;
        }
        i := i + 1;
        return;
      }
      if IsSpace(sql[i]) { hasSpace := true; }
      i := i + 1;
    }
    DoubleLenEnd(sql);
  }

  lemma QuoteIsNoSpace()
    ensures !IsSpace('"')
  {
  }

  lemma {:induction false} DoubleLenEnd(s: seq<Byte>)
    ensures DoubleLen(s[|s|..]) == 0
  {
  }

  lemma {:induction false} DoubleLenStep(s: seq<Byte>, i: nat)
    requires i < |s|
    ensures DoubleLen(s[i..]) ==
            if s[i] == '"' then if i + 1 < |s| && s[i + 1] == '"' then 2 + DoubleLen(s[i + 2..]) else 1
            else 1 + DoubleLen(s[i + 1..])
  {
    assert s[i..][1..] == s[i + 1..];
    if i + 1 < |s| { assert s[i..][2..] == s[i + 2..]; }
  }

  lemma {:induction false} HasSpaceSnoc(s: seq<Byte>, a: nat, b: nat)
    requires a <= b < |s|
    ensures HasSpace(s[a..b + 1]) == (HasSpace(s[a..b]) || IsSpace(s[b]))
    ensures !HasSpace(s[a..a])
  {
    var t, u := s[a..b], s[a..b + 1];
    assert u == t + [s[b]];
    if k :| 0 <= k < |t| && IsSpace(t[k]) {
      assert IsSpace(u[k]);
    }
    if IsSpace(s[b]) { assert IsSpace(u[|t|]); }
  }

  // ---------------------------------------------------------------- idempotence

  /** Some byte from 128 up stands outside every quoted token. */
  predicate NonAsciiOutsideQuotes(s: seq<Byte>, ident: bool)
    decreases |s|
  {
    s != [] && (s[0] as int >= 128 ||
                var t := Next(s, ident); NonAsciiOutsideQuotes(t.rest, EndsIdent(t.out)))
  }

  /** The result starts with a double quote or whitespace only where the input does. */
  lemma {:induction false} FirstByte(s: seq<Byte>, ident: bool)
    requires s != []
    ensures Fp(s, ident) != []
    ensures s[0] != '"' ==> Fp(s, ident)[0] != '"'
    ensures !IsSpace(s[0]) ==> !IsSpace(Fp(s, ident)[0])
  {
  }

  /** A closed double-quoted token is cut at the same place whatever follows it, unless a quote does. */
  lemma {:induction false} DoubleStable(s: seq<Byte>, y: seq<Byte>)
    requires DoubleLen(s) < |s|
    requires y == [] || y[0] != '"'
    ensures s[DoubleLen(s)] != '"'
    ensures DoubleLen(s[..DoubleLen(s)] + y) == DoubleLen(s)
  {
    var n := DoubleLen(s);
    var t := s[..n] + y;
    hide DoubleLen;
    assert s[0..] == s && t[0..] == t;
    DoubleLenStep(s, 0);
    if s[0] == '"' && |s| > 1 && s[1] == '"' {
      DoubleStable(s[2..], y);
      SkipHead(s, n, y, 2);
      DoubleLenStep(t, 0);
    } else if s[0] == '"' {
      DoubleLenStep(t, 0);
    } else {
      DoubleStable(s[1..], y);
      SkipHead(s, n, y, 1);
      DoubleLenStep(t, 0);
    }
  }

  lemma {:induction false} SkipHead(s: seq<Byte>, n: nat, y: seq<Byte>, k: nat)
    requires k <= n <= |s|
    ensures (s[..n] + y)[k..] == s[k..][..n - k] + y
  {
  }

  /** Reading a kept double-quoted token again yields that token. */
  lemma {:induction false} DoubleTokenStable(s: seq<Byte>, ident: bool, y: seq<Byte>)
    requires s != [] && s[0] == '"'
    requires var r := Next(s, ident).rest; if r == [] then y == [] else y != [] && (r[0] != '"' ==> y[0] != '"')
    ensures var t := Next(s, ident); t.out != ['?'] ==> Next(t.out + y, ident) == Token(t.out, y)
  {
    var t := Next(s, ident);
    var n := DoubleLen(s[1..]);
    if t.out != ['?'] {
      var z := t.out + y;
      assert z[0] == '"' && z[1..] == s[1..][..n] + y;
      if n < |s[1..]| {
        DoubleStable(s[1..], []);
        assert t.rest[0] == s[1..][n];
        DoubleStable(s[1..], y);
      } else {
        assert s[1..][..n] + y == s[1..];
      }
      assert z[..n + 1] == t.out && z[n + 1..] == y;
    }
  }

  /** A one-byte output that is not a quote or a digit out of place is read back as itself. */
  lemma {:induction false} ByteStable(c: Byte, y: seq<Byte>, ident: bool)
    requires c as int < 128 && c != '\'' && c != '"' && (IsDigit(c) ==> ident)
    requires StartsSpace(c) ==> c == ' ' && (y == [] || !IsSpace(y[0]))
    ensures Next([c] + y, ident) == Token([c], y)
  {
    var z := [c] + y;
    assert z[0] == c && z[1..] == y;
  }

  /** Reading a token's own output again yields that token, followed by the rest of the result. */
  lemma {:induction false} TokenStable(s: seq<Byte>, ident: bool)
    requires s != [] && s[0] as int < 128
    ensures var t := Next(s, ident);
            var y := Fp(t.rest, EndsIdent(t.out));
            Next(t.out + y, ident) == Token(t.out, y)
  {
    var t := Next(s, ident);
    var y := Fp(t.rest, EndsIdent(t.out));
    if t.rest != [] { FirstByte(t.rest, EndsIdent(t.out)); }
    if s[0] == '"' && t.out != ['?'] {
      DoubleTokenStable(s, ident, y);
    } else {
      assert t.out == [t.out[0]];
      ByteStable(t.out[0], y, ident);
    }
  }

  /** A byte from 128 up is pushed as two such bytes, each of which is pushed as two again. */
  lemma {:induction false} HighByteGrows(c: Byte, y: seq<Byte>, ident: bool)
    requires c as int >= 128
    ensures |Fp(Push(c) + y, ident)| == 4 + |Fp(y, false)|
    ensures !EndsIdent(Push(c))
  {
    var p := Push(c);
    var z := p + y;
    assert z[0] == p[0] && z[1..] == [p[1]] + y;
    assert z[1..][0] == p[1] && z[1..][1..] == y;
    assert Next(z, ident) == Token(Push(p[0]), z[1..]);
    assert Next(z[1..], false) == Token(Push(p[1]), y);
  }

  lemma {:induction false} Rescan(s: seq<Byte>, ident: bool)
    ensures |Fp(Fp(s, ident), ident)| >= |Fp(s, ident)|
    ensures NonAsciiOutsideQuotes(s, ident) ==> |Fp(Fp(s, ident), ident)| > |Fp(s, ident)|
    ensures !NonAsciiOutsideQuotes(s, ident) ==> Fp(Fp(s, ident), ident) == Fp(s, ident)
    decreases |s|
  {
    if s != [] {
      var t := Next(s, ident);
      var y := Fp(t.rest, EndsIdent(t.out));
      Rescan(t.rest, EndsIdent(t.out));
      if s[0] as int >= 128 {
        HighByteGrows(s[0], y, ident);
      } else {
        TokenStable(s, ident);
      }
    }
  }

  /** Fingerprinting twice is fingerprinting once exactly when every non-ASCII byte is inside quotes. */
  lemma {:induction false} IdempotentIff(s: seq<Byte>)
    ensures Fp(Fp(s, false), false) == Fp(s, false) <==> !NonAsciiOutsideQuotes(s, false)
  {
    Rescan(s, false);
  }

  /** A query that is valid UTF-8, the two bytes of one accented letter, and that changes again. */
  lemma {:induction false} AccentIsNotStable()
    ensures var s: seq<Byte> := [0xC3 as char, 0xA9 as char]; Fp(Fp(s, false), false) != Fp(s, false)
  {
    IdempotentIff([0xC3 as char, 0xA9 as char]);
  }

  lemma {:induction false} AsciiHasNoHighByte(s: seq<Byte>, ident: bool)
    requires forall c :: c in s ==> c as int < 128
    ensures !NonAsciiOutsideQuotes(s, ident)
    decreases |s|
  {
    if s != [] {
      var t := Next(s, ident);
      RestIsWithin(s, ident);
      assert s[0] in s;
      AsciiHasNoHighByte(t.rest, EndsIdent(t.out));
    }
  }

  lemma {:induction false} RestIsWithin(s: seq<Byte>, ident: bool)
    requires s != []
    ensures var r := Next(s, ident).rest; forall c :: c in r ==> c in s
  {
    SingleRestWithin(s[1..]);
    RunRestWithin(s[1..]);
    assert forall c :: c in s[1..] ==> c in s;
  }

  lemma {:induction false} SingleRestWithin(s: seq<Byte>)
    ensures forall c :: c in SkipSingle(s) ==> c in s
  {
    if s != [] && s[0] != '\'' && s[0] != '\\' {
      SingleRestWithin(s[1..]);
    } else if |s| >= 2 && (s[0] == '\\' || s[1] == '\'') {
      SingleRestWithin(s[2..]);
    }
  }

  lemma {:induction false} RunRestWithin(s: seq<Byte>)
    ensures forall c :: c in SkipNumber(s) ==> c in s
    ensures forall c :: c in SkipSpace(s) ==> c in s
  {
    if s != [] {
      RunRestWithin(s[1..]);
      assert forall c :: c in s[1..] ==> c in s;
    }
  }

  /** For every ASCII query the fingerprint of the fingerprint is the fingerprint. */
  lemma {:induction false} IdempotentOnAscii(s: seq<Byte>)
    requires forall c :: c in s ==> c as int < 128
    ensures Fp(Fp(s, false), false) == Fp(s, false)
  {
    AsciiHasNoHighByte(s, false);
    IdempotentIff(s);
  }

  // ---------------------------------------------------------------- literal independence

  /** The input after an opening single quote ends inside the literal, with no escape pending.  Such
      inputs are the bodies of literals: every quote in them is escaped or doubled. */
  predicate OpenSingle(s: seq<Byte>) {
    if s == [] then true
    else if s[0] == '\\' then |s| >= 2 && OpenSingle(s[2..])
    else if s[0] == '\'' then |s| > 1 && s[1] == '\'' && OpenSingle(s[2..])
    else OpenSingle(s[1..])
  }

  function Quoted(b: seq<Byte>): (q: seq<Byte>)
    ensures q != [] && q[0] == '\''
  {
    ['\''] + b + ['\'']
  }

  predicate OpenDouble(s: seq<Byte>) {
    if s == [] then true
    else if s[0] == '"' then |s| > 1 && s[1] == '"' && OpenDouble(s[2..])
    else OpenDouble(s[1..])
  }

  /** A quote that follows `p` would not open a literal of its own: `p` ends inside quotes. */
  predicate EndsInsideQuotes(p: seq<Byte>, ident: bool)
    decreases |p|
  {
    p != [] &&
    (|| (p[0] == '\'' && OpenSingle(p[1..]))
     || (p[0] == '"' && OpenDouble(p[1..]))
     || var t := Next(p, ident); EndsInsideQuotes(t.rest, EndsIdent(t.out)))
  }

  lemma {:induction false} OpenSingleSkips(a: seq<Byte>, x: seq<Byte>)
    requires OpenSingle(a)
    ensures SkipSingle(a + x) == SkipSingle(x)
  {
    if a == [] {
      assert a + x == x;
    } else {
      var k := if a[0] == '\\' || a[0] == '\'' then 2 else 1;
      OpenSingleSkips(a[k..], x);
      assert (a + x)[k..] == a[k..] + x;
    }
  }

  lemma {:induction false} SkipSingleExtends(a: seq<Byte>, x: seq<Byte>)
    requires x != [] && x[0] == '\''
    requires !OpenSingle(a)
    ensures SkipSingle(a) != [] ==> SkipSingle(a + x) == SkipSingle(a) + x
    ensures SkipSingle(a) == [] ==> SkipSingle(a + x) == SkipSingle(x[1..])
  {
    var z := a + x;
    assert z[0] == a[0];
    if a[0] == '\\' {
      if |a| >= 2 {
        SkipSingleExtends(a[2..], x);
        assert z[2..] == a[2..] + x;
      } else {
        assert z[2..] == x[1..];
      }
    } else if a[0] == '\'' {
      if |a| > 1 {
        assert z[1] == a[1];
        if a[1] == '\'' {
          SkipSingleExtends(a[2..], x);
          assert z[2..] == a[2..] + x;
        } else {
          assert z[1..] == a[1..] + x;
        }
      } else {
        assert z[1] == '\'' && z[2..] == x[1..];
      }
    } else {
      SkipSingleExtends(a[1..], x);
      assert z[1..] == a[1..] + x;
    }
  }

  lemma {:induction false} DoubleLenExtends(a: seq<Byte>, x: seq<Byte>)
    requires x != [] && x[0] != '"'
    requires !OpenDouble(a)
    ensures DoubleLen(a + x) == DoubleLen(a)
  {
    var z := a + x;
    assert z[0] == a[0];
    if a[0] == '"' && |a| > 1 && a[1] == '"' {
      assert z[2..] == a[2..] + x;
      DoubleLenExtends(a[2..], x);
    } else if a[0] != '"' {
      assert z[1..] == a[1..] + x;
      DoubleLenExtends(a[1..], x);
    }
  }

  lemma {:induction false} RunsExtend(a: seq<Byte>, x: seq<Byte>)
    requires x != [] && x[0] == '\''
    ensures SkipNumber(a + x) == SkipNumber(a) + x
    ensures SkipSpace(a + x) == SkipSpace(a) + x
  {
    if a == [] {
      assert a + x == x;
    } else {
      assert (a + x)[1..] == a[1..] + x;
      RunsExtend(a[1..], x);
    }
  }

  lemma {:induction false} QuotedSkips(b: seq<Byte>, s: seq<Byte>)
    requires OpenSingle(b)
    ensures SkipSingle((Quoted(b) + s)[1..]) == SkipSingle(['\''] + s)
  {
    assert (Quoted(b) + s)[1..] == b + (['\''] + s);
    OpenSingleSkips(b, ['\''] + s);
  }

  /** Those are all the bodies there are: quoted, exactly they make one literal, whatever follows but
      another quote. */
  lemma {:induction false} BodyIff(b: seq<Byte>)
    ensures OpenSingle(b) <==>
            forall s: seq<Byte> :: (s != [] ==> s[0] != '\'') ==> SkipSingle((Quoted(b) + s)[1..]) == s
  {
    var x: seq<Byte> := ['x'];
    if OpenSingle(b) {
      forall s: seq<Byte> | s != [] ==> s[0] != '\'' ensures SkipSingle((Quoted(b) + s)[1..]) == s {
        QuotedSkips(b, s);
        assert (['\''] + s)[1..] == s;
      }
    } else {
      var y: seq<Byte> := ['\''] + x;
      assert (Quoted(b) + x)[1..] == b + y && y[1..] == x && x[1..] == [];
      SkipSingleExtends(b, y);
      assert SkipSingle(b + y) != x;
    }
  }

  /** What a token leaves when a quote follows the input: only a single-quoted literal at the very end of
      the input is carried on by that quote. */
  lemma {:induction false} NextBeforeQuote(p: seq<Byte>, ident: bool, x: seq<Byte>)
    requires p != [] && !(p[0] == '\'' && OpenSingle(p[1..])) && !(p[0] == '"' && OpenDouble(p[1..]))
    requires x != [] && x[0] == '\''
    ensures var t := Next(p, ident);
            Next(p + x, ident) ==
            Token(t.out, if p[0] == '\'' && t.rest == [] then SkipSingle(x[1..]) else t.rest + x)
  {
    assert (p + x)[0] == p[0] && (p + x)[1..] == p[1..] + x;
    if p[0] == '\'' {
      SkipSingleExtends(p[1..], x);
    } else if p[0] == '"' {
      DoubleLenExtends(p[1..], x);
      var n := 1 + DoubleLen(p[1..]);
      assert (p + x)[..n] == p[..n] && (p + x)[n..] == p[n..] + x;
    } else {
      RunsExtend(p[1..], x);
    }
  }

  /** One literal is as good as another, escapes and all, after text that does not end inside quotes. */
  lemma {:induction false} LiteralIndependence(p: seq<Byte>, ident: bool, b: seq<Byte>, b': seq<Byte>, s: seq<Byte>)
    requires !EndsInsideQuotes(p, ident)
    requires OpenSingle(b) && OpenSingle(b')
    ensures Fp(p + (Quoted(b) + s), ident) == Fp(p + (Quoted(b') + s), ident)
    decreases |p|
  {
    var x, x' := Quoted(b) + s, Quoted(b') + s;
    QuotedSkips(b, s);
    QuotedSkips(b', s);
    if p == [] {
      assert p + x == x && p + x' == x';
      FpOfToken(x, ident, Token(['?'], SkipSingle(['\''] + s)));
      FpOfToken(x', ident, Token(['?'], SkipSingle(['\''] + s)));
    } else {
      var t := Next(p, ident);
      NextBeforeQuote(p, ident, x);
      NextBeforeQuote(p, ident, x');
      FpOfToken(p + x, ident, Next(p + x, ident));
      FpOfToken(p + x', ident, Next(p + x', ident));
      if p[0] != '\'' || t.rest != [] {
        LiteralIndependence(t.rest, EndsIdent(t.out), b, b', s);
      }
    }
  }

  /** Two literals that tell the prefixes ending inside quotes apart. */
  const BODY: seq<Byte> := ['"', 'a']

  lemma {:induction false} OpenDoubleLen(a: seq<Byte>, x: seq<Byte>)
    requires OpenDouble(a)
    requires x == [] || x[0] != '"'
    ensures DoubleLen(a + x) == |a| + DoubleLen(x)
  {
    if a == [] {
      assert a + x == x;
    } else {
      var k := if a[0] == '"' then 2 else 1;
      OpenDoubleLen(a[k..], x);
      assert (a + x)[k..] == a[k..] + x;
    }
  }

  /** Inside an open single-quoted literal the quote closes it, and the body is read as SQL. */
  lemma {:induction false} SingleExposes(p: seq<Byte>, ident: bool)
    requires p != [] && p[0] == '\'' && OpenSingle(p[1..])
    ensures Fp(p + Quoted([]), ident) != Fp(p + Quoted(BODY), ident)
  {
    var x, x' := Quoted([]), Quoted(BODY);
    OpenSingleNext(p, ident, x);
    OpenSingleNext(p, ident, x');
    assert x[2..] == [] && SkipSingle(x) == [] && SkipSingle(x') == x'[1..];
    FpOfToken(p + x, ident, Token(['?'], []));
    FpOfToken(p + x', ident, Token(['?'], x'[1..]));
    FirstByte(x'[1..], false);
    assert |Fp(p + x, ident)| == 1 && |Fp(p + x', ident)| > 1;
  }

  lemma {:induction false} OpenSingleNext(p: seq<Byte>, ident: bool, x: seq<Byte>)
    requires p != [] && p[0] == '\'' && OpenSingle(p[1..])
    ensures Next(p + x, ident) == Token(['?'], SkipSingle(x))
  {
    assert (p + x)[0] == p[0] && (p + x)[1..] == p[1..] + x;
    OpenSingleSkips(p[1..], x);
  }

  /** An open double-quoted token swallows the start of what follows it. */
  lemma {:induction false} OpenDoubleNext(p: seq<Byte>, ident: bool, x: seq<Byte>)
    requires p != [] && p[0] == '"' && OpenDouble(p[1..])
    requires x != [] && x[0] != '"'
    ensures var t := Next(p + x, ident);
            t.rest == x[DoubleLen(x)..] && (t.out == ['?'] || t.out == p + x[..DoubleLen(x)])
  {
    hide Next, DoubleLen, HasSpace, OpenDouble, SkipSingle, SkipNumber, SkipSpace;
    OpenDoubleLen(p[1..], x);
    assert (p + x)[0] == p[0] && (p + x)[1..] == p[1..] + x;
    NextKinds(p + x, ident);
    CutConcat(p, x, |p| + DoubleLen(x));
  }

  lemma {:induction false} CutConcat(p: seq<Byte>, x: seq<Byte>, n: nat)
    requires n <= |p| + |x|
    ensures (p + x)[..n] == if n <= |p| then p[..n] else p + x[..n - |p|]
    ensures (p + x)[n..] == if n <= |p| then p[n..] + x else x[n - |p|..]
  {
  }

  lemma {:induction false} BodyTokens()
    ensures var x: seq<Byte>, x': seq<Byte> := Quoted([]), Quoted(BODY);
            && DoubleLen(x) == 2 && x[..2] == x && x[2..] == []
            && DoubleLen(x') == 2 && x'[2..] == ['a', '\'']
  {
    var x: seq<Byte>, x': seq<Byte> := Quoted([]), Quoted(BODY);
    assert x == ['\'', '\''] && x' == ['\'', '"', 'a', '\''];
    assert x[1..] == ['\''] && x[1..][1..] == [] && DoubleLen(x[1..]) == 1;
    assert x'[1..] == ['"', 'a', '\''] && DoubleLen(x'[1..]) == 1;
  }

  /** Inside an open double-quoted token the body can close the token. */
  lemma {:induction false} DoubleExposes(p: seq<Byte>, ident: bool)
    requires p != [] && p[0] == '"' && OpenDouble(p[1..])
    ensures Fp(p + Quoted([]), ident) != Fp(p + Quoted(BODY), ident)
  {
    hide Next, Fp, DoubleLen, OpenDouble, Quoted, EndsIdent;
    var x, x' := Quoted([]), Quoted(BODY);
    BodyTokens();
    OpenDoubleNext(p, ident, x);
    OpenDoubleNext(p, ident, x');
    var out, out' := Next(p + x, ident).out, Next(p + x', ident).out;
    AfterClosedDouble(EndsIdent(out'));
    FpOfToken(p + x, ident, Token(out, []));
    FpOfToken(p + x', ident, Token(out', ['a', '\'']));
    FpOfNothing(EndsIdent(out));
    assert out != ['?'] ==> out == p + x && out[|out| - 1] == x[1] == '\'' by { assert x == ['\'', '\''] by { QuotedNothing(); } }
    assert (out' + ['a', '?'])[|out'| + 1] == '?';
  }

  lemma {:induction false} FpOfNothing(ident: bool)
    ensures Fp([], ident) == []
  {
  }

  lemma {:induction false} QuotedNothing()
    ensures Quoted([]) == ['\'', '\'']
  {
  }

  lemma {:induction false} AfterClosedDouble(ident: bool)
    ensures Fp(['a', '\''], ident) == ['a', '?']
  {
    var s: seq<Byte> := ['a', '\''];
    assert s[1..] == ['\''];
    ByteStable('a', s[1..], ident);
    assert Fp(s[1..], true) == ['?'] + Fp([], false);
  }

  lemma {:induction false} InsideQuotesExposes(p: seq<Byte>, ident: bool)
    requires EndsInsideQuotes(p, ident)
    ensures Fp(p + Quoted([]), ident) != Fp(p + Quoted(BODY), ident)
    decreases |p|
  {
    if p[0] == '\'' && OpenSingle(p[1..]) {
      SingleExposes(p, ident);
    } else if p[0] == '"' && OpenDouble(p[1..]) {
      DoubleExposes(p, ident);
    } else {
      var t := Next(p, ident);
      var x, x' := Quoted([]), Quoted(BODY);
      InsideQuotesExposes(t.rest, EndsIdent(t.out));
      NextBeforeQuote(p, ident, x);
      NextBeforeQuote(p, ident, x');
      FpOfToken(p + x, ident, Token(t.out, t.rest + x));
      FpOfToken(p + x', ident, Token(t.out, t.rest + x'));
      var y, y' := Fp(t.rest + x, EndsIdent(t.out)), Fp(t.rest + x', EndsIdent(t.out));
      assert (t.out + y)[|t.out|..] == y && (t.out + y')[|t.out|..] == y';
    }
  }

  /** The value of a literal after `p` never shows in the fingerprint, whatever follows it. */
  ghost predicate HidesLiteralsAfter(p: seq<Byte>) {
    forall b: seq<Byte>, b': seq<Byte>, s: seq<Byte> :: OpenSingle(b) && OpenSingle(b') ==>
      Fp(p + (Quoted(b) + s), false) == Fp(p + (Quoted(b') + s), false)
  }

  /** Literals after `p` are hidden exactly when the scan of `p` does not end inside quotes. */
  lemma {:induction false} HidesLiteralsIff(p: seq<Byte>)
    ensures HidesLiteralsAfter(p) <==> !EndsInsideQuotes(p, false)
  {
    if EndsInsideQuotes(p, false) {
      InsideQuotesExposes(p, false);
      assert Quoted([]) + [] == Quoted([]) && Quoted(BODY) + [] == Quoted(BODY);
      assert Fp(p + (Quoted([]) + []), false) != Fp(p + (Quoted(BODY) + []), false);
    } else {
      forall b: seq<Byte>, b': seq<Byte>, s: seq<Byte> | OpenSingle(b) && OpenSingle(b')
        ensures Fp(p + (Quoted(b) + s), false) == Fp(p + (Quoted(b') + s), false)
      {
        LiteralIndependence(p, false, b, b', s);
      }
    }
  }

  // ---------------------------------------------------------------- numbers and whitespace

  /** The input after an opening single quote holds the closing one. */
  predicate SingleCloses(s: seq<Byte>) {
    if s == [] then false
    else if s[0] == '\\' then |s| >= 2 && SingleCloses(s[2..])
    else if s[0] == '\'' then |s| > 1 && s[1] == '\'' ==> SingleCloses(s[2..])
    else SingleCloses(s[1..])
  }

  /** The scan of `p` closes every quote it opens. */
  predicate Balanced(p: seq<Byte>, ident: bool)
    decreases |p|
  {
    p == [] ||
    (&& (p[0] == '\'' ==> SingleCloses(p[1..]))
     && (p[0] == '"' ==> !OpenDouble(p[1..]))
     && var t := Next(p, ident); Balanced(t.rest, EndsIdent(t.out)))
  }

  /** Whether the fingerprint of `p` ends in an identifier byte. */
  predicate FinalIdent(p: seq<Byte>, ident: bool)
    decreases |p|
  {
    if p == [] then ident else var t := Next(p, ident); FinalIdent(t.rest, EndsIdent(t.out))
  }

  lemma {:induction false} SkipSingleStops(a: seq<Byte>, x: seq<Byte>)
    requires SingleCloses(a) && x != [] && x[0] != '\''
    ensures SkipSingle(a + x) == SkipSingle(a) + x
  {
    var z := a + x;
    assert z[0] == a[0];
    if a[0] == '\\' || (a[0] == '\'' && |a| > 1 && a[1] == '\'') {
      assert z[1] == a[1] && z[2..] == a[2..] + x;
      SkipSingleStops(a[2..], x);
    } else {
      assert z[1..] == a[1..] + x;
      if a[0] != '\'' {
        SkipSingleStops(a[1..], x);
      } else {
        assert |z| > 1 && z[1] != '\'';
      }
    }
  }

  lemma {:induction false} RunsCarryOn(a: seq<Byte>, x: seq<Byte>)
    ensures SkipNumber(a + x) == if SkipNumber(a) == [] then SkipNumber(x) else SkipNumber(a) + x
    ensures SkipSpace(a + x) == if SkipSpace(a) == [] then SkipSpace(x) else SkipSpace(a) + x
  {
    if a == [] {
      assert a + x == x;
    } else {
      assert (a + x)[1..] == a[1..] + x;
      RunsCarryOn(a[1..], x);
    }
  }

  lemma {:induction false} NextBeforeInQuotes(p: seq<Byte>, ident: bool, x: seq<Byte>)
    requires p != [] && (p[0] == '\'' || p[0] == '"') && Balanced(p, ident)
    requires x != [] && x[0] != '\'' && x[0] != '"'
    ensures var t := Next(p, ident); Next(p + x, ident) == Token(t.out, t.rest + x)
  {
    assert (p + x)[0] == p[0] && (p + x)[1..] == p[1..] + x;
    if p[0] == '\'' {
      SkipSingleStops(p[1..], x);
    } else {
      DoubleLenExtends(p[1..], x);
      CutConcat(p, x, 1 + DoubleLen(p[1..]));
    }
    hide HasSpace, Push, SkipSingle, DoubleLen, SkipNumber, SkipSpace, IsDigit, StartsSpace;
  }

  /** What a token of a balanced prefix leaves when `x` follows: a number or a whitespace run at the end
      of the prefix is carried on, and nothing else is. */
  lemma {:induction false} NextBefore(p: seq<Byte>, ident: bool, x: seq<Byte>)
    requires p != [] && Balanced(p, ident)
    requires x != [] && x[0] != '\'' && x[0] != '"'
    ensures var t := Next(p, ident);
            Next(p + x, ident) == Token(t.out,
              if t.rest == [] && IsDigit(p[0]) && !ident then SkipNumber(x)
              else if t.rest == [] && StartsSpace(p[0]) then SkipSpace(x)
              else t.rest + x)
  {
    assert (p + x)[0] == p[0] && (p + x)[1..] == p[1..] + x;
    if p[0] == '\'' || p[0] == '"' {
      NextBeforeInQuotes(p, ident, x);
    } else {
      RunsCarryOn(p[1..], x);
      assert IsDigit(p[0]) ==> !StartsSpace(p[0]);
    }
    assert (p[0] == '\'' || p[0] == '"') ==> !IsDigit(p[0]) && !StartsSpace(p[0]);
    hide HasSpace, Push, SkipSingle, DoubleLen, SkipNumber, SkipSpace, IsDigit, StartsSpace, Balanced;
  }

  /** Two continuations that are fingerprinted alike, also when a number or whitespace run swallows their start. */
  predicate Alike(x: seq<Byte>, x': seq<Byte>, ident: bool) {
    && x != [] && x[0] != '\'' && x[0] != '"' && x' != [] && x'[0] != '\'' && x'[0] != '"'
    && Fp(x, ident) == Fp(x', ident)
    && Fp(SkipNumber(x), false) == Fp(SkipNumber(x'), false)
    && Fp(SkipSpace(x), false) == Fp(SkipSpace(x'), false)
  }

  lemma {:induction false} AlikeAfter(p: seq<Byte>, ident: bool, x: seq<Byte>, x': seq<Byte>)
    requires Balanced(p, ident) && Alike(x, x', FinalIdent(p, ident))
    ensures Fp(p + x, ident) == Fp(p + x', ident)
    decreases |p|
  {
    if p == [] {
      assert p + x == x && p + x' == x';
    } else {
      var t := Next(p, ident);
      NextBefore(p, ident, x);
      NextBefore(p, ident, x');
      assert IsDigit(p[0]) && !ident ==> t.out == ['?'];
      assert !IsDigit(p[0]) && StartsSpace(p[0]) ==> t.out == [' '];
      assert EndsIdent(['?']) == EndsIdent([' ']) == false;
      hide Fp, Next, SkipNumber, SkipSpace, EndsIdent, IsDigit, StartsSpace;
      FpOfToken(p + x, ident, Next(p + x, ident));
      FpOfToken(p + x', ident, Next(p + x', ident));
      AlikeAfter(t.rest, EndsIdent(t.out), x, x');
    }
  }

  predicate IsNumeral(d: seq<Byte>) { d != [] && IsDigit(d[0]) && forall i :: 0 <= i < |d| ==> IsNumberPart(d[i]) }

  predicate IsBlank(w: seq<Byte>) { w != [] && StartsSpace(w[0]) && forall i :: 0 <= i < |w| ==> IsSpace(w[i]) }

  lemma {:induction false} SkipsRun(d: seq<Byte>, s: seq<Byte>)
    ensures (forall i :: 0 <= i < |d| ==> IsNumberPart(d[i])) ==> SkipNumber(d + s) == SkipNumber(s)
    ensures (forall i :: 0 <= i < |d| ==> IsSpace(d[i])) ==> SkipSpace(d + s) == SkipSpace(s)
  {
    if d == [] {
      assert d + s == s;
    } else {
      assert (d + s)[1..] == d[1..] + s;
      SkipsRun(d[1..], s);
    }
  }

  lemma {:induction false} NumeralFp(d: seq<Byte>, s: seq<Byte>)
    requires IsNumeral(d)
    ensures Fp(d + s, false) == ['?'] + Fp(SkipNumber(s), false)
    ensures SkipNumber(d + s) == SkipNumber(s) && SkipSpace(d + s) == d + s
  {
    hide Fp, Next, SkipSpace, SkipNumber, IsNumberPart;
    SkipsRun(d, s);
    SkipsRun(d[1..], s);
    assert (d + s)[0] == d[0] && (d + s)[1..] == d[1..] + s;
    NoSpace(d + s);
    NextKinds(d + s, false);
    FpOfToken(d + s, false, Token(['?'], SkipNumber(s)));
  }

  lemma {:induction false} BlankFp(w: seq<Byte>, s: seq<Byte>, ident: bool)
    requires IsBlank(w)
    ensures Fp(w + s, ident) == [' '] + Fp(SkipSpace(s), false)
    ensures SkipSpace(w + s) == SkipSpace(s) && SkipNumber(w + s) == w + s
  {
    hide Fp, Next, SkipSpace, SkipNumber, IsNumberPart;
    SkipsRun(w, s);
    SkipsRun(w[1..], s);
    assert (w + s)[0] == w[0] && (w + s)[1..] == w[1..] + s;
    SpaceIsSpace(w[0]);
    NoNumber(w + s);
    NextKinds(w + s, ident);
    FpOfToken(w + s, ident, Token([' '], SkipSpace(s)));
  }

  lemma {:induction false} NoNumber(s: seq<Byte>)
    requires s != [] && !IsNumberPart(s[0])
    ensures SkipNumber(s) == s
  {
  }

  lemma {:induction false} NoSpace(s: seq<Byte>)
    requires s != [] && IsDigit(s[0])
    ensures SkipSpace(s) == s
  {
  }

  /** One numeral is as good as another where a number can stand: after balanced text whose fingerprint
      does not end in an identifier byte. */
  lemma {:induction false} NumberIndependence(p: seq<Byte>, d: seq<Byte>, d': seq<Byte>, s: seq<Byte>)
    requires Balanced(p, false) && !FinalIdent(p, false)
    requires IsNumeral(d) && IsNumeral(d')
    ensures Fp(p + (d + s), false) == Fp(p + (d' + s), false)
  {
    NumeralFp(d, s);
    NumeralFp(d', s);
    assert (d + s)[0] == d[0] && (d' + s)[0] == d'[0];
    AlikeAfter(p, false, d + s, d' + s);
  }

  /** One run of whitespace is as good as another, anywhere outside quotes. */
  lemma {:induction false} WhitespaceIndependence(p: seq<Byte>, w: seq<Byte>, w': seq<Byte>, s: seq<Byte>)
    requires Balanced(p, false) && IsBlank(w) && IsBlank(w')
    ensures Fp(p + (w + s), false) == Fp(p + (w' + s), false)
  {
    BlankFp(w, s, FinalIdent(p, false));
    BlankFp(w', s, FinalIdent(p, false));
    BlankFp(w, s, false);
    BlankFp(w', s, false);
    assert (w + s)[0] == w[0] && (w' + s)[0] == w'[0];
    AlikeAfter(p, false, w + s, w' + s);
  }

  // ---------------------------------------------------------------- what becomes of each kind of text

  /** A piece of a single-quoted body: a byte that is no quote and no backslash, a backslash with the byte
      after it, or a doubled quote. */
  datatype Piece = Plain(c: Byte) | Escaped(c: Byte) | Doubled {
    predicate Ok() { Plain? ==> c != '\'' && c != '\\' }

    function Text(): seq<Byte> {
      match this
      case Plain(c) => [c]
      case Escaped(c) => ['\\', c]
      case Doubled => ['\'', '\'']
    }
  }

  function Body(ps: seq<Piece>): seq<Byte> { if ps == [] then [] else ps[0].Text() + Body(ps[1..]) }

  predicate AllOk(ps: seq<Piece>) { forall i :: 0 <= i < |ps| ==> ps[i].Ok() }

  lemma {:induction false} BodyIsOpen(ps: seq<Piece>)
    requires AllOk(ps)
    ensures OpenSingle(Body(ps))
    decreases ps
  {
    if ps != [] {
      BodyIsOpen(ps[1..]);
      assert ps[0].Ok();
      var t, rest := ps[0].Text(), Body(ps[1..]);
      assert (t + rest)[|t|..] == rest && (t + rest)[0] == t[0];
      assert |t| == 2 ==> (t + rest)[1] == t[1];
    }
  }

  /** A single-quoted literal becomes a question mark, whatever its pieces. */
  lemma {:induction false} SingleQuotedMark(ps: seq<Piece>, s: seq<Byte>, ident: bool)
    requires AllOk(ps) && (s != [] ==> s[0] != '\'')
    ensures Fp(['\''] + Body(ps) + ['\''] + s, ident) == ['?'] + Fp(s, false)
  {
    BodyIsOpen(ps);
    var b := Body(ps);
    var x := Quoted(b) + s;
    QuotedSkips(b, s);
    assert (['\''] + s)[1..] == s;
    hide Fp, Next;
    NextKinds(x, ident);
    FpOfToken(x, ident, Token(['?'], s));
  }

  /** One that is never closed swallows the rest of the query. */
  lemma {:induction false} UnclosedSingleMark(ps: seq<Piece>, ident: bool)
    requires AllOk(ps)
    ensures Fp(['\''] + Body(ps), ident) == ['?']
  {
    BodyIsOpen(ps);
    var x := ['\''] + Body(ps);
    OpenSingleSkips(Body(ps), []);
    SkipSingleEnd();
    assert x[1..] == Body(ps) && Body(ps) + [] == Body(ps);
    hide Fp, Next;
    NextKinds(x, ident);
    FpOfToken(x, ident, Token(['?'], []));
    FpOfNothing(false);
    assert EndsIdent(['?']) == false;
  }

  /** The body of a double-quoted token, in which double quotes only come doubled, and what closes it. */
  lemma {:induction false} DoubleLenBody(b: seq<Byte>, x: seq<Byte>)
    requires OpenDouble(b) && (x == [] || (x[0] == '"' && (|x| > 1 ==> x[1] != '"')))
    ensures DoubleLen(b + x) == |b| + if x == [] then 0 else 1
  {
    if b == [] {
      assert b + x == x;
    } else {
      var k := if b[0] == '"' then 2 else 1;
      assert (b + x)[k..] == b[k..] + x;
      DoubleLenBody(b[k..], x);
    }
  }

  function DoubleToken(b: seq<Byte>, closed: bool): seq<Byte> { ['"'] + b + if closed then ['"'] else [] }

  lemma {:induction false} SpaceInToken(b: seq<Byte>, closed: bool)
    ensures HasSpace(DoubleToken(b, closed)) <==> exists i :: 0 <= i < |b| && b[i] as int in {9, 10, 12, 13, 32}
  {
    var t := DoubleToken(b, closed);
    assert forall i :: 0 <= i < |b| ==> b[i] == t[i + 1];
  }

  lemma {:induction false} DoubleTokenNext(b: seq<Byte>, closed: bool, s: seq<Byte>, ident: bool)
    requires OpenDouble(b) && (s != [] ==> closed && s[0] != '"')
    ensures var t := DoubleToken(b, closed);
            Next(t + s, ident) == Token(if HasSpace(t) then ['?'] else t, s)
  {
    hide Next, HasSpace, OpenDouble, DoubleLen;
    var close: seq<Byte> := if closed then ['"'] else [];
    var t := DoubleToken(b, closed);
    assert (t + s)[1..] == b + (close + s);
    DoubleLenBody(b, close + s);
    CutConcat(t, s, |t|);
    assert t[..|t|] == t && t[|t|..] + s == s;
    NextKinds(t + s, ident);
  }

  /** A double-quoted token stays as it is without ASCII whitespace in it, and becomes a question mark
      with, also when it is never closed. */
  lemma {:induction false} DoubleQuotedMark(b: seq<Byte>, closed: bool, s: seq<Byte>, ident: bool)
    requires OpenDouble(b) && (s != [] ==> closed && s[0] != '"')
    ensures var space := exists i :: 0 <= i < |b| && b[i] as int in {9, 10, 12, 13, 32};
            var t := ['"'] + b + if closed then ['"'] else [];
            Fp(t + s, ident) == (if space then ['?'] else t) + Fp(s, false)
  {
    hide Fp, Next, HasSpace, OpenDouble;
    var t := DoubleToken(b, closed);
    var out := if HasSpace(t) then ['?'] else t;
    SpaceInToken(b, closed);
    DoubleTokenNext(b, closed, s, ident);
    FpOfToken(t + s, ident, Token(out, s));
    FpOfNothing(false);
    FpOfNothing(EndsIdent(out));
    assert s != [] ==> out[|out| - 1] == '"' || out == ['?'];
  }

  const DIGITS: string := "0123456789"
  const NUMBER_BYTES: string := "0123456789.xX+-abcdefABCDEF"

  lemma {:induction false} NumberBytes(c: Byte)
    ensures IsDigit(c) <==> c in DIGITS
    ensures IsNumberPart(c) <==> c in NUMBER_BYTES
  {
    if IsNumberPart(c) {
      var i: int := if IsDigit(c) then c as int - 48 else if c == '.' then 10 else if c == 'x' then 11
        else if c == 'X' then 12 else if c == '+' then 13 else if c == '-' then 14
        else if 'a' <= c <= 'f' then 15 + (c as int - 97) else 21 + (c as int - 65);
      assert NUMBER_BYTES[i] == c;
      assert IsDigit(c) ==> DIGITS[i] == c;
    }
  }

  /** A number becomes a question mark where the result does not end in an identifier: a digit and all the
      bytes after it that can stand in a number. */
  lemma {:induction false} NumberMark(d: seq<Byte>, s: seq<Byte>)
    requires d != [] && d[0] in DIGITS && (forall i :: 0 <= i < |d| ==> d[i] in NUMBER_BYTES)
    requires s != [] ==> s[0] !in NUMBER_BYTES
    ensures Fp(d + s, false) == ['?'] + Fp(s, false)
  {
    NumberBytes(d[0]);
    forall i | 0 <= i < |d| ensures IsNumberPart(d[i]) { NumberBytes(d[i]); }
    if s != [] { NumberBytes(s[0]); }
    NumeralFp(d, s);
  }

  /** A whitespace run becomes one space: a space, tab, newline or carriage return and all the whitespace
      after it, form feeds included. */
  lemma {:induction false} BlankMark(w: seq<Byte>, s: seq<Byte>, ident: bool)
    requires w != [] && w[0] as int in {9, 10, 13, 32}
    requires forall i :: 0 <= i < |w| ==> w[i] as int in {9, 10, 12, 13, 32}
    requires s != [] ==> s[0] as int !in {9, 10, 12, 13, 32}
    ensures Fp(w + s, ident) == [' '] + Fp(s, false)
  {
    assert forall i :: 0 <= i < |w| ==> IsSpace(w[i]);
    BlankFp(w, s, ident);
  }

  /** Any other byte passes through, a digit after an identifier too, and a byte from 128 up as its UTF-8
      encoding; letters, digits and underscores are identifiers. */
  lemma {:induction false} OtherBytesPass(c: Byte, s: seq<Byte>, ident: bool)
    requires c != '\'' && c != '"' && c as int !in {9, 10, 13, 32} && (c in DIGITS ==> ident)
    ensures Fp([c] + s, ident) ==
            (if c as int < 128 then [c] else [(0xC0 + c as int / 64) as char, (0x80 + c as int % 64) as char])
            + Fp(s, c in DIGITS || 'a' <= c <= 'z' || 'A' <= c <= 'Z' || c == '_')
  {
    NumberBytes(c);
    var x := [c] + s;
    assert x[1..] == s;
    assert c as int >= 128 ==> !IsIdent(c) && !IsIdent(Push(c)[1]);
    hide Fp, Next, IsNumberPart;
    NextKinds(x, ident);
    FpOfToken(x, ident, Token(Push(c), s));
  }
}
