/** Pipe descriptors as text, `TYPE:in:out`: the printer that fills a buffer it
    has sized beforehand, and the parser. */
module PipeText {
  import opened Wrappers

  datatype CommType = COMM_ERROR | WAY_REQ | WAY_RES | MOV_CMD | RANGE_POSE_DATA | MAP_UPDATE | COMM_ACK | MSG_BUFFER

  datatype Pipe = Pipe(kind: CommType, fdIn: int, fdOut: int)

  function Name(t: CommType): (s: string)
    ensures |s| >= 7 && forall i :: 0 <= i < |s| ==> s[i] != ':'
  {
    match t
    case COMM_ERROR => "COMM_ERROR"
    case WAY_REQ => "WAY_REQ"
    case WAY_RES => "WAY_RES"
    case MOV_CMD => "MOV_CMD"
    case RANGE_POSE_DATA => "RANGE_POSE_DATA"
    case MAP_UPDATE => "MAP_UPDATE"
    case COMM_ACK => "COMM_ACK"
    case MSG_BUFFER => "MSG_BUFFER"
  }

  function CommToEnum(name: string): CommType {
    if name == "WAY_REQ" then WAY_REQ
    else if name == "WAY_RES" then WAY_RES
    else if name == "MOV_CMD" then MOV_CMD
    else if name == "RANGE_POSE_DATA" then RANGE_POSE_DATA
    else if name == "MAP_UPDATE" then MAP_UPDATE
    else if name == "COMM_ACK" then COMM_ACK
    else if name == "MSG_BUFFER" then MSG_BUFFER
    else COMM_ERROR
  }

  // ----- decimal numbers

  function Digit(d: nat): (c: char)
    requires d < 10
    ensures '0' <= c <= '9' && c as int - 48 == d
  {
    (48 + d) as char
  }

  function Decimal(n: nat): (s: string)
    ensures |s| >= 1 && forall i :: 0 <= i < |s| ==> '0' <= s[i] <= '9'
  {
    if n < 10 then [Digit(n)] else Decimal(n / 10) + [Digit(n % 10)]
  }

  /** Division by ten in C, which rounds towards zero, and its remainder. */
  function Quot(n: int): (q: int)
    ensures n >= 0 ==> q == n / 10
    ensures n < 0 ==> q <= 0
  {
    if n >= 0 then n / 10 else -(-n / 10)
  }

  function Rem(n: int): (r: int)
    ensures n >= 0 ==> r == n % 10
    ensures n < 0 ==> -10 < r <= 0
  {
    if n >= 0 then n % 10 else -(-n % 10)
  }

  /** The character the printer writes for the last digit of a number. */
  function LastDigit(n: int): (c: char)
    ensures c <= '9' && (n >= 0 ==> c == Digit(n % 10)) && (n < 0 ==> c <= '0')
  {
    (48 + Rem(n)) as char
  }

  /** What the printer makes of a number. Of a negative one it writes a single
      character, at or below '0'. */
  function Digits(n: int): (s: string)
    ensures |s| >= 1 && forall i :: 0 <= i < |s| ==> s[i] <= '9'
  {
    if n < 0 then [LastDigit(n)] else Decimal(n)
  }

  /** The digits that the printer's counting loop finds: it stops at a zero. */
  function NumLen(n: int): (k: nat)
    ensures 1 <= k <= |Digits(n)|
    decreases if n < 0 then 0 else n
  {
    if Rem(Quot(n)) > 0 then 1 + NumLen(Quot(n)) else 1
  }

  /** All digits but the last are other than zero. */
  predicate NoInnerZero(n: int) {
    n < 10 || (n / 10 % 10 > 0 && NoInnerZero(n / 10))
  }

  lemma {:induction false} NumLenIsExact(n: int)
    ensures NumLen(n) == |Digits(n)| <==> NoInnerZero(n)
    decreases if n < 0 then 0 else n
  {
    if n >= 10 && n / 10 % 10 > 0 {
      NumLenIsExact(n / 10);
    }
  }

  /** The numbers 100 and 105 are counted as having one digit. */
  lemma InnerZeros()
    ensures NumLen(100) == NumLen(105) == 1 && |Decimal(100)| == |Decimal(105)| == 3
    ensures !NoInnerZero(100) && !NoInnerZero(105)
  {
    assert Decimal(1) == "1" && Decimal(10) == "10" && Decimal(100) == "100" && Decimal(105) == "105";
  }

  predicate IsDigit(c: char) {
    '0' <= c <= '9'
  }

  predicate IsSpace(c: char) {
    c == ' ' || '\t' <= c <= '\r'
  }

  /** `atoi`: the value of the digits behind blanks and a sign. */
  function Atoi(s: string): int {
    if s != [] && IsSpace(s[0]) then Atoi(s[1..])
    else if s != [] && s[0] == '-' then -(AtoiFrom(s[1..], 0) as int)
    else if s != [] && s[0] == '+' then AtoiFrom(s[1..], 0)
    else AtoiFrom(s, 0)
  }

  function AtoiFrom(s: string, value: nat): nat {
    if s == [] || !IsDigit(s[0]) then value
    else AtoiFrom(s[1..], value * 10 + (s[0] as int - 48))
  }

  /** Reading a printed number gives it back, and 0 for a negative one. */
  lemma AtoiDigits(n: int, rest: string)
    requires rest == [] || !IsDigit(rest[0])
    ensures Atoi(Digits(n) + rest) == if n < 0 then 0 else n
  {
    var s := Digits(n) + rest;
    assert s[0] == Digits(n)[0];
    if n < 0 {
      assert s[1..] == rest;
      assert AtoiFrom(s, 0) == 0;
    } else {
      AtoiFromDecimal(n, rest);
      assert AtoiFrom(rest, n) == n;
    }
  }

  lemma {:induction false} AtoiFromDecimal(n: nat, rest: string)
    ensures AtoiFrom(Decimal(n) + rest, 0) == AtoiFrom(rest, n)
  {
    if n < 10 {
      assert (Decimal(n) + rest)[1..] == rest;
    } else {
      AtoiFromDecimal(n / 10, [Digit(n % 10)] + rest);
      assert Decimal(n) + rest == Decimal(n / 10) + ([Digit(n % 10)] + rest);
      assert ([Digit(n % 10)] + rest)[1..] == rest;
    }
  }

  // ----- the text of a descriptor

  function Text(pipe: Pipe): string {
    Name(pipe.kind) + ":" + (if pipe.fdIn == 0 then "0:" + Digits(pipe.fdOut) else Digits(pipe.fdIn) + ":0")
  }

  /** The descriptor number that is printed. */
  function Fd(pipe: Pipe): int {
    if pipe.fdIn == 0 then pipe.fdOut else pipe.fdIn
  }

  function IndexOf(s: string, c: char, from: nat): (i: nat)
    requires from <= |s|
    ensures from <= i <= |s| && (forall k :: from <= k < i ==> s[k] != c) && (i < |s| ==> s[i] == c)
    decreases |s| - from
  {
    if from == |s| || s[from] == c then from else IndexOf(s, c, from + 1)
  }

  lemma IndexIs(s: string, c: char, from: nat, i: nat)
    requires from <= i < |s| && s[i] == c && forall k :: from <= k < i ==> s[k] != c
    ensures IndexOf(s, c, from) == i
  {
  }

  /** What the parser makes of a text; None stands for running past the end of
      it or of the ten places for the first number. */
  function Parsed(s: string): Option<Pipe> {
    var a := IndexOf(s, ':', 0);
    if a == |s| then None
    else
      var b := IndexOf(s, ':', a + 1);
      if b == |s| || b - (a + 1) > 9 then None
      else Some(Pipe(CommToEnum(s[..a]), Atoi(s[a + 1..b]), Atoi(s[b + 1..])))
  }

  lemma {:induction false} DecimalLength(n: nat, k: nat)
    requires k >= 1
    ensures |Decimal(n)| <= k <==> n < Pow10(k)
  {
    if n >= 10 {
      if k > 1 {
        DecimalLength(n / 10, k - 1);
      }
    } else {
      assert Pow10(k) >= 10;
    }
  }

  function Pow10(k: nat): (p: nat)
    ensures p >= 1
  {
    if k == 0 then 1 else 10 * Pow10(k - 1)
  }

  lemma ZeroIsPrinted()
    ensures Digits(0) == "0"
  {
  }

  lemma NameIsRead(t: CommType)
    ensures CommToEnum(Name(t)) == t
  {
  }

  lemma NineDigits(n: int)
    ensures |Digits(n)| <= 9 <==> n < 1_000_000_000
  {
    assert Pow10(3) == 1000;
    assert Pow10(6) == 1000 * Pow10(3);
    assert Pow10(9) == 1000 * Pow10(6);
    if n >= 0 {
      DecimalLength(n, 9);
    }
  }

  /** A field is found by the colon that ends it. */
  lemma FieldEnd(s: string, from: nat, name: string)
    requires forall i :: 0 <= i < |name| ==> name[i] != ':'
    requires from + |name| < |s| && s[from..from + |name|] == name && s[from + |name|] == ':'
    ensures IndexOf(s, ':', from) == from + |name|
  {
    forall k | from <= k < from + |name| ensures s[k] != ':' {
      assert s[k] == name[k - from];
    }
    IndexIs(s, ':', from, from + |name|);
  }

  lemma Middle(a: string, b: string, c: string, s: string)
    requires s == a + b + c
    ensures s[|a|..|a| + |b|] == b && s[|a| + |b|..] == c
  {
    assert s[..|a| + |b|] == a + b;
    assert s[|a|..|a| + |b|] == s[..|a| + |b|][|a|..];
  }

  lemma OneField(pre: string, name: string, rest: string, s: string)
    requires s == pre + name + (":" + rest)
    ensures |pre| + |name| < |s| && s[|pre| + |name|] == ':'
    ensures s[|pre|..|pre| + |name|] == name && s[|pre| + |name| + 1..] == rest
  {
    Middle(pre, name, ":" + rest, s);
    assert s[|pre| + |name|..][0] == ':';
    assert s[|pre| + |name| + 1..] == s[|pre| + |name|..][1..];
  }

  /** What descriptors look like. */
  lemma Examples()
    ensures Text(Pipe(MAP_UPDATE, 0, 7)) == "MAP_UPDATE:0:7"
    ensures Text(Pipe(WAY_REQ, 12, 0)) == "WAY_REQ:12:0"
    ensures Text(Pipe(WAY_RES, 0, 345)) == "WAY_RES:0:345"
  {
    SomeNumbers();
    hide Decimal;
  }

  lemma SomeNumbers()
    ensures Decimal(7) == "7" && Decimal(12) == "12" && Decimal(345) == "345"
  {
    assert Decimal(1) == "1" && Decimal(3) == "3" && Decimal(34) == "34";
  }

  /** Blanks and a sign before the digits, and anything behind them. */
  lemma AtoiExamples()
    ensures Atoi(" -12:") == -12 && Atoi("+7") == 7 && Atoi("\t3x4") == 3 && Atoi("x") == Atoi("") == 0
  {
    assert " -12:"[1..] == "-12:" && "-12:"[1..] == "12:" && "12:"[1..] == "2:" && "2:"[1..] == ":";
    assert "+7"[1..] == "7" && "7"[1..] == "";
    assert "\t3x4"[1..] == "3x4" && "3x4"[1..] == "x4";
  }

  /** A text that is parsed has two colons, at most nine characters apart. */
  lemma NeedsTwoColons(s: string) returns (a: nat, b: nat)
    requires Parsed(s) != None
    ensures a < b < |s| && s[a] == s[b] == ':' && b - a <= 10
    ensures forall i :: 0 <= i < b && i != a ==> s[i] != ':'
    ensures Parsed(s) == Some(Pipe(CommToEnum(s[..a]), Atoi(s[a + 1..b]), Atoi(s[b + 1..])))
  {
    a := IndexOf(s, ':', 0);
    b := IndexOf(s, ':', a + 1);
  }

  /** Any other name is an error. */
  lemma OtherNames(name: string)
    ensures CommToEnum(name) == COMM_ERROR <==> forall t :: t != COMM_ERROR ==> Name(t) != name
  {
    NameIsRead(CommToEnum(name));
    forall t: CommType | t != COMM_ERROR && Name(t) == name ensures CommToEnum(name) == t {
      NameIsRead(t);
    }
    assert CommToEnum(name) != COMM_ERROR ==> Name(CommToEnum(name)) == name;
  }

  /** Pipes that survive the text: one of the two descriptors is unset, neither
      is negative, and the first has at most nine digits. */
  predicate Printable(pipe: Pipe) {
    (pipe.fdIn == 0 || pipe.fdOut == 0) && 0 <= pipe.fdIn < 1_000_000_000 && 0 <= pipe.fdOut
  }

  lemma Regroup(name: string, first: string, rest: string, s: string)
    requires s == name + ":" + first + ":" + rest
    ensures s == "" + name + (":" + (first + ":" + rest))
    ensures s == (name + ":") + first + (":" + rest)
  {
  }

  /** What the parser makes of three fields. */
  lemma ParsedFields(name: string, first: string, rest: string, s: string)
    requires forall i :: 0 <= i < |name| ==> name[i] != ':'
    requires forall i :: 0 <= i < |first| ==> first[i] != ':'
    requires s == name + ":" + first + ":" + rest
    ensures Parsed(s) == if |first| > 9 then None else Some(Pipe(CommToEnum(name), Atoi(first), Atoi(rest)))
  {
    hide CommToEnum, Atoi, IndexOf;
    Regroup(name, first, rest, s);
    OneField("", name, first + ":" + rest, s);
    FieldEnd(s, 0, name);
    OneField(name + ":", first, rest, s);
    FieldEnd(s, |name| + 1, first);
  }

  lemma TextFields(pipe: Pipe)
    ensures Text(pipe) + ['\0'] == Name(pipe.kind) + ":" + Digits(pipe.fdIn) + ":"
              + (Digits(if pipe.fdIn == 0 then pipe.fdOut else 0) + ['\0'])
  {
    hide Name, Digits;
    ZeroIsPrinted();
  }

  /** Parsing a correctly printed descriptor gives it back, for every message
      type, exactly when it is printable. */
  lemma TextRoundTrip(pipe: Pipe)
    ensures Parsed(Text(pipe) + ['\0']) == Some(pipe) <==> Printable(pipe)
  {
    hide Name, CommToEnum, Digits, Parsed, Atoi, Text;
    var first, second := Digits(pipe.fdIn), if pipe.fdIn == 0 then pipe.fdOut else 0;
    TextFields(pipe);
    ParsedFields(Name(pipe.kind), first, Digits(second) + ['\0'], Text(pipe) + ['\0']);
    AtoiDigits(pipe.fdIn, []);
    assert first + [] == first;
    AtoiDigits(second, ['\0']);
    NineDigits(pipe.fdIn);
    NameIsRead(pipe.kind);
  }

  // ----- printing in place

  /** The counting loop. */
  method CountDigits(fd: int) returns (numLen: nat)
    ensures numLen == NumLen(fd)
  {
    var temp := fd;
    numLen := 1;
    temp := Quot(temp);
    while Rem(temp) > 0
      invariant numLen + (if Rem(temp) > 0 then NumLen(temp) else 0) == NumLen(fd)
      decreases temp
    {
      numLen := numLen + 1;
      temp := Quot(temp);
    }
  }

  /** One digit of a number that is printed from its last digit on. */
  lemma NextDigit(digits: string, temp: int, written: nat)
    requires written < |digits| && Digits(temp) == digits[..|digits| - written]
    ensures digits[|digits| - written - 1] == LastDigit(temp)
    ensures Quot(temp) <= 0 <==> written + 1 == |digits|
    ensures Quot(temp) > 0 ==> Digits(Quot(temp)) == digits[..|digits| - written - 1]
  {
    var last := |digits| - written - 1;
    assert Digits(temp)[last] == digits[last];
    if temp >= 10 {
      assert Digits(temp) == Digits(temp / 10) + [Digit(temp % 10)];
      assert Digits(temp)[..last] == digits[..last];
    }
  }

  lemma PutBefore(s: string, i: nat, tail: string, j: nat, c: char)
    requires i + 1 + |tail| == j <= |s|
    ensures (s[..i + 1] + tail + s[j..])[i := c] == s[..i] + ([c] + tail) + s[j..]
  {
  }

  /** The buffer `now` is `was` with the last `written` digits laid down so that
      all of them will end at place `end`. */
  ghost predicate Printed(was: string, now: string, digits: string, end: nat, written: nat)
    requires written <= |digits| <= end <= |was|
  {
    now == was[..end - written] + digits[|digits| - written..] + was[end..]
  }

  lemma PrintOne(was: string, now: string, digits: string, end: nat, written: nat)
    requires written < |digits| <= end <= |was| && Printed(was, now, digits, end, written)
    ensures |now| == |was|
    ensures Printed(was, now[end - written - 1 := digits[|digits| - written - 1]], digits, end, written + 1)
  {
    PutBefore(was, end - written - 1, digits[|digits| - written..], end, digits[|digits| - written - 1]);
    assert [digits[|digits| - written - 1]] + digits[|digits| - written..] == digits[|digits| - written - 1..];
  }

  /** Prints fd, its last digit first, so that it ends after the numLen places
      from `at` on, however many digits it has. A write outside the buffer is not
      done and reported. */
  method PrintDigits(serial: array<char>, at: nat, fd: int, numLen: nat) returns (ok: bool, index: nat)
    requires numLen >= 1
    modifies serial
    ensures ok <==> |Digits(fd)| <= at + numLen <= serial.Length
    ensures ok ==> index == at + |Digits(fd)|
    ensures ok ==>
      serial[..] == old(serial[..at + numLen - |Digits(fd)|]) + Digits(fd) + old(serial[at + numLen..])
  {
    hide Digits, LastDigit, Printed, Quot;
    ghost var digits, was, D, end := Digits(fd), serial[..], |Digits(fd)|, at + numLen;
    ghost var fits := D <= end <= serial.Length;
    var temp, left := fd, numLen - 1;
    ghost var written := 0;
    index := at;
    ok := true;
    if fits {
      PrintedStart(was, digits, end);
    }
    while true
      invariant 0 <= written < D && left == numLen - 1 - 2 * written && index == at + written
      invariant written > 0 ==> written <= end <= serial.Length
      invariant Digits(temp) == digits[..D - written]
      invariant fits ==> Printed(was, serial[..], digits, end, written)
      decreases temp
    {
      NextDigit(digits, temp, written);
      if !(0 <= index + left < serial.Length) {
        return false, index;
      }
      ghost var before := serial[..];
      serial[index + left] := LastDigit(temp);
      if fits {
        PrintOne(was, before, digits, end, written);
        assert serial[..] == before[index + left := LastDigit(temp)];
      }
      temp := Quot(temp);
      left := left - 2;
      index := index + 1;
      written := written + 1;
      if !(temp > 0) {
        break;
      }
    }
    if fits {
      PrintedEnd(was, serial[..], digits, end);
    }
  }

  lemma PrintedStart(was: string, digits: string, end: nat)
    requires |digits| <= end <= |was|
    ensures Printed(was, was, digits, end, 0)
  {
  }

  lemma PrintedEnd(was: string, now: string, digits: string, end: nat)
    requires |digits| <= end <= |was| && Printed(was, now, digits, end, |digits|)
    ensures now == was[..end - |digits|] + digits + was[end..]
  {
    assert digits[0..] == digits;
  }

  /** Writes one character if the buffer has the place. */
  method Put(serial: array<char>, index: nat, c: char) returns (ok: bool)
    modifies serial
    ensures ok <==> index < serial.Length
    ensures ok ==> serial[..index + 1] == old(serial[..index]) + [c]
    ensures ok ==> serial[index + 1..] == old(serial[index + 1..])
  {
    ok := index < serial.Length;
    if ok {
      serial[index] := c;
    }
  }

  method PutAll(serial: array<char>, index: nat, text: string) returns (ok: bool)
    modifies serial
    ensures ok <==> index + |text| <= serial.Length || text == ""
    ensures ok && text != "" ==> serial[..index + |text|] == old(serial[..index]) + text
  {
    ok := true;
    for i := 0 to |text|
      invariant i > 0 ==> index + i <= serial.Length
      invariant index <= serial.Length ==> serial[..index] == old(serial[..index])
      invariant i > 0 ==> serial[..index + i] == old(serial[..index]) + text[..i]
    {
      ok := Put(serial, index + i, text[i]);
      if !ok {
        return;
      }
      assert text[..i + 1] == text[..i] + [text[i]];
    }
    assert text[..|text|] == text;
  }

  /** A descriptor for writing: an empty first field, then the number. */
  method PrintOut(serial: array<char>, at: nat, fd: int, numLen: nat) returns (ok: bool)
    requires numLen == NumLen(fd) && serial.Length == at + 4 + numLen
    modifies serial
    ensures ok <==> numLen == |Digits(fd)|
    ensures ok ==> serial[..] == old(serial[..at]) + (":0:" + Digits(fd) + ['\0'])
  {
    hide Digits, NumLen;
    ghost var head, digits := serial[..at], Digits(fd);
    var index := at + 3;
    ok := PutAll(serial, at, ":0:");
    assert serial[..index] == head + ":0:";
    ok, index := PrintDigits(serial, index, fd, numLen);
    if ok {
      assert numLen == |digits| ==> serial[..index] == head + ":0:" + digits;
      ok := PutAll(serial, index, ['\0']);
      assert serial[..serial.Length] == serial[..];
    }
  }

  /** A descriptor for reading: the number, then an empty second field. */
  method PrintIn(serial: array<char>, at: nat, fd: int, numLen: nat) returns (ok: bool)
    requires numLen == NumLen(fd) && serial.Length == at + 4 + numLen
    modifies serial
    ensures ok <==> numLen == |Digits(fd)|
    ensures ok ==> serial[..] == old(serial[..at]) + (":" + Digits(fd) + ":0" + ['\0'])
  {
    hide Digits, NumLen;
    ghost var head, digits := serial[..at], Digits(fd);
    var index := at + 1;
    ok := PutAll(serial, at, ":");
    assert serial[..index] == head + ":";
    ok, index := PrintDigits(serial, index, fd, numLen);
    if ok {
      assert numLen == |digits| ==> serial[..index] == head + ":" + digits;
      ok := PutAll(serial, index, ":0" + ['\0']);
      assert serial[..serial.Length] == serial[..];
    }
  }

  /** The printer. A write outside the allocation is reported instead of done; it
      happens just when the digits are miscounted. Otherwise the text and its
      closing zero fill the allocation exactly. */
  method SerializePipe(pipe: Pipe) returns (serial: array<char>, ok: bool)
    ensures ok <==> NoInnerZero(Fd(pipe))
    ensures ok ==> serial[..] == Text(pipe) + ['\0']
  {
    hide Name, Digits, NumLen, NoInnerZero;
    NumLenIsExact(Fd(pipe));
    var name := Name(pipe.kind);
    var numLen := CountDigits(if pipe.fdIn == 0 then pipe.fdOut else pipe.fdIn);
    serial := new char[|name| + 4 + numLen];
    ok := PutAll(serial, 0, name);
    ghost var digits := Digits(Fd(pipe));
    assert serial[..|name|] == name;
    if pipe.fdIn == 0 {
      ok := PrintOut(serial, |name|, pipe.fdOut, numLen);
      assert ok ==> serial[..] == name + (":0:" + digits + ['\0']) == Text(pipe) + ['\0'];
    } else {
      ok := PrintIn(serial, |name|, pipe.fdIn, numLen);
      assert ok ==> serial[..] == name + (":" + digits + ":0" + ['\0']) == Text(pipe) + ['\0'];
    }
  }

  // ----- parsing

  /** The index of the next colon; the scan runs past the end if there is none. */
  method Scan(serial: string, from: nat) returns (index: nat)
    requires from <= |serial|
    ensures index == IndexOf(serial, ':', from)
  {
    index := from;
    while index < |serial| && serial[index] != ':'
      invariant from <= index <= |serial|
      invariant forall k :: from <= k < index ==> serial[k] != ':'
      invariant IndexOf(serial, ':', index) == IndexOf(serial, ':', from)
    {
      index := index + 1;
    }
  }

  /** The parser. */
  method DeserializePipe(serial: string) returns (pipe: Option<Pipe>)
    ensures pipe == Parsed(serial)
  {
    hide CommToEnum, Atoi;
    var a := Scan(serial, 0);
    if a == |serial| {
      return None;
    }
    var kind := CommToEnum(serial[..a]);
    var digit := "";
    var index := a + 1;
    while index < |serial| && serial[index] != ':' && |digit| < 10
      invariant a + 1 <= index <= |serial| && digit == serial[a + 1..index] && |digit| <= 10
      invariant IndexOf(serial, ':', index) == IndexOf(serial, ':', a + 1)
    {
      digit := digit + [serial[index]];
      index := index + 1;
    }
    if index == |serial| || |digit| == 10 {
      return None;
    }
    pipe := Some(Pipe(kind, Atoi(digit), Atoi(serial[index + 1..])));
  }

  /** A descriptor on which the printer leaves its allocation. */
  method HundredOverruns(kind: CommType) returns (ok: bool)
    ensures !ok
  {
    var serial;
    InnerZeros();
    serial, ok := SerializePipe(Pipe(kind, 100, 0));
  }

  /** A descriptor whose ten digits overrun the parser's places. */
  lemma TenDigitsOverrun(kind: CommType)
    ensures Parsed(Text(Pipe(kind, 1_111_111_111, 0)) + ['\0']) == None
  {
    hide Name, CommToEnum, Digits, Parsed, Atoi, Text;
    var pipe := Pipe(kind, 1_111_111_111, 0);
    TextFields(pipe);
    ParsedFields(Name(kind), Digits(pipe.fdIn), Digits(0) + ['\0'], Text(pipe) + ['\0']);
    NineDigits(pipe.fdIn);
  }

  /** Printing and parsing together give the pipe back exactly when it is
      printable and its number has no zero before its last digit. */
  method SendAndReceive(pipe: Pipe) returns (back: Option<Pipe>)
    ensures back == Some(pipe) <==> Printable(pipe) && NoInnerZero(Fd(pipe))
  {
    var serial, ok := SerializePipe(pipe);
    back := None;
    if ok {
      back := DeserializePipe(serial[..]);
      TextRoundTrip(pipe);
    }
  }
}
