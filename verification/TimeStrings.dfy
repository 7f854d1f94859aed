/** TIME values as strings (database-jones/Adapter/common/MySQLTime.js). */
module TimeStrings {

  // ---------------------------------------------------------------- numbers in digits

  predicate IsDigit(c: char) {
    '0' <= c <= '9'
  }

  predicate IsLetter(c: char) {
    'A' <= c <= 'Z' || 'a' <= c <= 'z'
  }

  predicate AllDigits(s: string) {
    forall i :: 0 <= i < |s| ==> IsDigit(s[i])
  }

  function DigitOf(n: nat): (c: char)
    requires n < 10
    ensures IsDigit(c) && (c as int) - ('0' as int) == n
  {
    ((n + 48) as char)
  }

  /** A number as digits, without leading zeros. */
  function Digits(n: nat): (s: string)
    ensures AllDigits(s) && s != []
  {
    if n < 10 then [DigitOf(n)] else Digits(n / 10) + [DigitOf(n % 10)]
  }

  /** The number that digits stand for. */
  function Number(s: string): nat
    requires AllDigits(s)
  {
    if s == [] then 0 else 10 * Number(s[..|s| - 1]) + (s[|s| - 1] as int - '0' as int)
  }

  function Power(k: nat): nat {
    if k == 0 then 1 else 10 * Power(k - 1)
  }

  lemma {:induction false} NumberOfDigits(n: nat)
    ensures Number(Digits(n)) == n
  {
    if n >= 10 {
      NumberOfDigits(n / 10);
      assert Digits(n)[..|Digits(n)| - 1] == Digits(n / 10);
    } else {
      assert Digits(n)[..0] == [];
    }
  }

  lemma {:induction false} FewDigits(n: nat, k: nat)
    requires n < Power(k) && k > 0
    ensures |Digits(n)| <= k
  {
    assert Power(1) == 10 * Power(0);
    if n >= 10 {
      FewDigits(n / 10, k - 1);
    }
  }

  lemma {:induction false} LeadingZero(s: string)
    requires AllDigits(s)
    ensures Number("0" + s) == Number(s)
  {
    var t := "0" + s;
    if s == [] {
      assert t[..0] == [];
    } else {
      LeadingZero(s[..|s| - 1]);
      assert t[..|t| - 1] == "0" + s[..|s| - 1];
    }
  }

  /** Digits with zeros in front, if there are fewer than width. */
  function Padded(s: string, width: nat): (r: string)
    requires AllDigits(s)
    ensures AllDigits(r) && |r| == if |s| < width then width else |s|
    ensures Number(r) == Number(s)
    decreases width - |s|
  {
    if |s| >= width then s
    else
      LeadingZero(s);
      Padded("0" + s, width)
  }

  lemma {:induction false} TwoMore(s: string, two: string)
    requires AllDigits(s) && AllDigits(two) && |two| == 2
    ensures AllDigits(s + two) && Number(s + two) == 100 * Number(s) + Number(two)
  {
    var all := s + two;
    assert all[..|all| - 1] == s + [two[0]];
    assert (s + [two[0]])[..|s|] == s;
    assert two[..1] == [two[0]] && [two[0]][..0] == [];
    assert Number([two[0]]) == two[0] as int - '0' as int;
  }

  // ---------------------------------------------------------------- fractions of a second

  /** A number without its last k digits. */
  function Cut(n: nat, k: nat): nat {
    if k == 0 then n else Cut(n / 10, k - 1)
  }

  /** A number with k zeros added. */
  function Grown(n: nat, k: nat): nat {
    if k == 0 then n else 10 * Grown(n, k - 1)
  }

  lemma {:induction false} CutOnce(n: nat, k: nat)
    ensures Cut(n, k) / 10 == Cut(n, k + 1)
  {
    if k > 0 {
      CutOnce(n / 10, k - 1);
    }
  }

  lemma {:induction false} GrownOnce(n: nat, k: nat)
    ensures Grown(10 * n, k) == Grown(n, k + 1)
  {
    if k > 0 {
      GrownOnce(n, k - 1);
    }
  }

  /** Cutting digits off and adding zeros rounds down. */
  lemma {:induction false} RoundsDown(n: nat, k: nat)
    ensures Grown(Cut(n, k), k) <= n < Grown(Cut(n, k), k) + Power(k)
    ensures Grown(Cut(n, k), k) == Cut(n, k) * Power(k)
  {
    if k > 0 {
      RoundsDown(n / 10, k - 1);
    }
  }

  /** Microseconds rounded down to a precision. */
  function Rounded(microsec: nat, fsp: nat): (r: nat)
    requires fsp <= 6
  {
    if fsp == 0 then 0 else Grown(Cut(microsec, 6 - fsp), 6 - fsp)
  }

  lemma {:induction false} CutIsSmall(n: nat, k: nat, m: nat)
    requires n < Power(k + m)
    ensures Cut(n, k) < Power(m)
  {
    if k > 0 {
      CutIsSmall(n / 10, k - 1, m);
    }
  }

  // ---------------------------------------------------------------- reading

  /** What is found in a string after the sign: its digits up to a point or a letter, what comes after
      the point, and how many colons come before. */
  datatype Scanned = Scanned(digits: string, decimalPart: string, colons: nat)

  function Scan(s: string): (r: Scanned)
    ensures AllDigits(r.digits)
  {
    if s == [] || IsLetter(s[0]) then Scanned("", "", 0)
    else if s[0] == '.' then Scanned("", s[1..], 0)
    else
      var rest := Scan(s[1..]);
      if IsDigit(s[0]) then rest.(digits := [s[0]] + rest.digits)
      else if s[0] == ':' then rest.(colons := rest.colons + 1)
      else rest
  }

  lemma {:induction false} ScanDigit(c: char, s: string)
    requires IsDigit(c)
    ensures Scan([c] + s) == Scan(s).(digits := [c] + Scan(s).digits)
  {
    assert ([c] + s)[1..] == s;
  }

  lemma {:induction false} OneMore(s: string, t: string)
    requires s != []
    ensures s + t == [s[0]] + (s[1..] + t)
  {
  }

  /** What is found in a string that goes on after some digits. */
  lemma {:induction false} ScanDigits(digits: string, s: string)
    requires AllDigits(digits)
    ensures Scan(digits + s).digits == digits + Scan(s).digits
    ensures Scan(digits + s).decimalPart == Scan(s).decimalPart && Scan(digits + s).colons == Scan(s).colons
  {
    if digits == [] {
      assert digits + s == s;
      assert digits + Scan(s).digits == Scan(s).digits;
    } else {
      ScanDigits(digits[1..], s);
      ScanDigit(digits[0], digits[1..] + s);
      OneMore(digits, s);
      OneMore(digits, Scan(s).digits);
    }
  }

  /** What is found in all is what was found before a position, and what is found from there on. */
  ghost predicate Found(all: Scanned, s: string, pos: nat, digits: string, decimalPart: string, colons: nat)
    requires pos <= |s|
  {
    && all.digits == digits + Scan(s[pos..]).digits && all.decimalPart == decimalPart + Scan(s[pos..]).decimalPart
    && all.colons == colons + Scan(s[pos..]).colons
  }

  lemma {:induction false} FoundNext(all: Scanned, s: string, pos: nat, digits: string, colons: nat)
    requires pos < |s| && Found(all, s, pos, digits, "", colons)
    ensures var c := s[pos];
            if IsLetter(c) then Found(all, s, |s|, digits, "", colons)
            else if c == '.' then Found(all, s, |s|, digits, s[pos + 1..], colons)
            else if IsDigit(c) then Found(all, s, pos + 1, digits + [c], "", colons)
            else Found(all, s, pos + 1, digits, "", if c == ':' then colons + 1 else colons)
  {
    assert s[pos..][1..] == s[pos + 1..] && s[pos..][0] == s[pos];
    assert s[|s|..] == [];
    if IsDigit(s[pos]) {
      var rest := Scan(s[pos + 1..]).digits;
      assert (digits + [s[pos]]) + rest == digits + ([s[pos]] + rest);
    }
  }

  lemma {:induction false} ScanColon(s: string)
    ensures Scan(":" + s) == Scan(s).(colons := Scan(s).colons + 1)
  {
    assert (":" + s)[1..] == s;
  }

  // ---------------------------------------------------------------- times

  datatype Time = Time(negative: bool, hour: nat, minute: nat, second: nat, microsec: nat)

  predicate Proper(time: Time, fsp: nat) {
    time.minute < 60 && time.second < 60 && time.microsec < 1000000 && fsp <= 6
  }

  /** The time of day in text that goes on. */
  function Clock(h: string, m: string, s: string, rest: string): string {
    h + (":" + (m + (":" + (s + rest))))
  }

  function Two(n: nat): (s: string)
    ensures AllDigits(s) && |s| >= 2 && Number(s) == n
  {
    NumberOfDigits(n);
    Padded(Digits(n), 2)
  }

  function Fraction(time: Time, fsp: nat): (s: string)
    requires fsp <= 6
  {
    if fsp == 0 then "" else "." + Padded(FractionDigits(time.microsec, fsp), fsp)
  }

  /** A time as a string. */
  function Text(time: Time, fsp: nat): (s: string)
    requires fsp <= 6
  {
    (if time.negative then "-" else "") + Clock(Two(time.hour), Two(time.minute), Two(time.second), Fraction(time, fsp))
  }

  function Seconds(time: Time): nat {
    10000 * time.hour + 100 * time.minute + time.second
  }

  lemma {:induction false} TwoDigits(n: nat)
    requires n < 100
    ensures |Two(n)| == 2
  {
    assert Power(2) == 10 * Power(1) && Power(1) == 10 * Power(0);
    FewDigits(n, 2);
  }

  /** What is found in digits followed by a colon. */
  lemma {:induction false} ScanBlock(digits: string, s: string)
    requires AllDigits(digits)
    ensures Scan(digits + (":" + s)).digits == digits + Scan(s).digits
    ensures Scan(digits + (":" + s)).decimalPart == Scan(s).decimalPart
    ensures Scan(digits + (":" + s)).colons == Scan(s).colons + 1
  {
    ScanDigits(digits, ":" + s);
    ScanColon(s);
  }

  lemma {:induction false} ScanClock(h: string, m: string, s: string, rest: string)
    requires AllDigits(h) && AllDigits(m) && AllDigits(s) && Scan(rest).digits == []
    ensures Scan(Clock(h, m, s, rest)) == Scanned(h + (m + s), Scan(rest).decimalPart, Scan(rest).colons + 2)
  {
    var r0 := s + rest;
    ScanDigits(s, rest);
    assert Scan(r0).digits == s;
    var r1 := m + (":" + r0);
    ScanBlock(m, r0);
    assert Scan(r1).digits == m + s;
    ScanBlock(h, r1);
  }

  lemma {:induction false} NumberOfClock(h: string, m: string, s: string)
    requires AllDigits(h) && AllDigits(m) && AllDigits(s) && |m| == |s| == 2
    ensures AllDigits(h + (m + s)) && Number(h + (m + s)) == 10000 * Number(h) + 100 * Number(m) + Number(s)
  {
    TwoMore(h, m);
    TwoMore(h + m, s);
    assert h + (m + s) == (h + m) + s;
  }

  lemma {:induction false} Million()
    ensures Power(6) == 1000000
  {
    assert Power(2) == 10 * Power(1) && Power(1) == 10 * Power(0);
    assert Power(4) == 10 * Power(3) && Power(3) == 10 * Power(2);
    assert Power(6) == 10 * Power(5) && Power(5) == 10 * Power(4);
  }

  /** The digits of a fraction fill its precision. */
  function FractionDigits(microsec: nat, fsp: nat): (s: string)
    requires fsp <= 6
    ensures AllDigits(s)
  {
    if microsec > 0 then Digits(Cut(microsec, 6 - fsp)) else ""
  }

  lemma {:induction false} FractionFits(microsec: nat, fsp: nat)
    requires 0 < fsp <= 6 && microsec < 1000000
    ensures |FractionDigits(microsec, fsp)| <= fsp && Number(FractionDigits(microsec, fsp)) == Cut(microsec, 6 - fsp)
  {
    if microsec > 0 {
      Million();
      CutIsSmall(microsec, 6 - fsp, fsp);
      FewDigits(Cut(microsec, 6 - fsp), fsp);
      NumberOfDigits(Cut(microsec, 6 - fsp));
    } else {
      CutZero(6 - fsp);
    }
  }

  lemma {:induction false} ScanFraction(time: Time, fsp: nat)
    requires Proper(time, fsp)
    ensures Scan(Fraction(time, fsp)).digits == [] && Scan(Fraction(time, fsp)).colons == 0
    ensures var part := Scan(Fraction(time, fsp)).decimalPart;
            AllDigits(part) && |part| == fsp && Number(part) == if fsp == 0 then 0 else Cut(time.microsec, 6 - fsp)
  {
    if fsp > 0 {
      var padded := Padded(FractionDigits(time.microsec, fsp), fsp);
      assert ("." + padded)[1..] == padded;
      FractionFits(time.microsec, fsp);
    }
  }

  lemma {:induction false} CutZero(k: nat)
    ensures Cut(0, k) == 0
  {
    if k > 0 {
      CutZero(k - 1);
    }
  }

  // ---------------------------------------------------------------- reading back

  predicate Signed(s: string) {
    s != "" && (s[0] == '+' || s[0] == '-')
  }

  function Unsigned(s: string): string {
    if Signed(s) then s[1..] else s
  }

  /** Digits after the point as microseconds. */
  function Microseconds(decimalPart: string): nat
    requires AllDigits(decimalPart)
  {
    if |decimalPart| > 6 then Cut(Number(decimalPart), |decimalPart| - 6)
        else Grown(Number(decimalPart), 6 - |decimalPart|)
  }

  lemma {:induction false} SignIsRead(time: Time, fsp: nat)
    requires fsp <= 6
    ensures Signed(Text(time, fsp)) && Text(time, fsp)[0] == '-' <==> time.negative
    ensures Unsigned(Text(time, fsp)) == Clock(Two(time.hour), Two(time.minute), Two(time.second), Fraction(time, fsp))
  {
    var h := Two(time.hour);
    var clock := Clock(h, Two(time.minute), Two(time.second), Fraction(time, fsp));
    assert IsDigit(h[0]) && clock[0] == h[0];
    if time.negative {
      assert Text(time, fsp)[1..] == clock;
    } else {
      assert Text(time, fsp) == clock;
    }
  }

  /** What is found in the text of a time. */
  lemma {:induction false} TextIsRead(time: Time, fsp: nat)
    requires Proper(time, fsp)
    ensures var found := Scan(Unsigned(Text(time, fsp)));
            found.digits != "" && Number(found.digits) == Seconds(time) && found.colons == 2
            && found.decimalPart == Scan(Fraction(time, fsp)).decimalPart
  {
    var h, m, s, rest := Two(time.hour), Two(time.minute), Two(time.second), Fraction(time, fsp);
    SignIsRead(time, fsp);
    ScanFraction(time, fsp);
    ScanClock(h, m, s, rest);
    TwoDigits(time.minute);
    TwoDigits(time.second);
    NumberOfClock(h, m, s);
  }

  lemma {:induction false} MicrosecondsOf(part: string, n: nat, fsp: nat)
    requires AllDigits(part) && |part| == fsp <= 6 && Number(part) == n
    ensures Microseconds(part) == Grown(n, 6 - fsp)
    ensures n == 0 ==> Grown(n, 6 - fsp) == 0
  {
    GrownZero(6 - fsp);
  }

  lemma {:induction false} FractionIsRead(time: Time, fsp: nat)
    requires Proper(time, fsp)
    ensures var part := Scan(Fraction(time, fsp)).decimalPart;
            && AllDigits(part)
            && (Number(part) > 0 ==> Microseconds(part) == Rounded(time.microsec, fsp))
            && (Number(part) == 0 ==> Rounded(time.microsec, fsp) == 0)
  {
    ScanFraction(time, fsp);
    if fsp > 0 {
      MicrosecondsOf(Scan(Fraction(time, fsp)).decimalPart, Cut(time.microsec, 6 - fsp), fsp);
    }
  }

  lemma {:induction false} GrownZero(k: nat)
    ensures Grown(0, k) == 0
  {
    if k > 0 {
      GrownZero(k - 1);
    }
  }

  lemma {:induction false} Hundreds(q: nat, r: nat)
    requires r < 100
    ensures (100 * q + r) / 100 == q && (100 * q + r) % 100 == r
  {
  }

  lemma {:induction false} TenThousands(q: nat, r: nat)
    requires r < 10000
    ensures (10000 * q + r) / 10000 == q
  {
  }

  lemma {:induction false} SecondsSplit(time: Time)
    requires time.minute < 60 && time.second < 60
    ensures Seconds(time) / 10000 == time.hour && Seconds(time) / 100 % 100 == time.minute
            && Seconds(time) % 100 == time.second
  {
    Hundreds(100 * time.hour + time.minute, time.second);
    Hundreds(time.hour, time.minute);
    TenThousands(time.hour, 100 * time.minute + time.second);
  }

  class MySQLTime {
    var sign: int
    /** The time of day is not a number after a string without digits has been read. */
    var isNaN: bool
    var hour: nat
    var minute: nat
    var second: nat
    var microsec: nat
    var fsp: nat

    constructor ()
      ensures sign == 1 && !isNaN && hour == minute == second == microsec == fsp == 0
    {
      sign, isNaN, hour, minute, second, microsec, fsp := 1, false, 0, 0, 0, 0, 0;
    }

    function Value(): Time
      reads this
    {
      Time(sign == -1, hour, minute, second, microsec)
    }

    method ScanString(jsValue: string) returns (negative: bool, numValue: string, decimalPart: string, colons: nat)
      ensures AllDigits(numValue) && Scan(Unsigned(jsValue)) == Scanned(numValue, decimalPart, colons)
      ensures negative <==> jsValue != "" && jsValue[0] == '-'
    {
      var pos := 0;
      negative := false;
      if pos < |jsValue| && (jsValue[pos] == '+' || jsValue[pos] == '-') {
        negative := jsValue[pos] == '-';
        pos := pos + 1;
      }
      assert Unsigned(jsValue) == jsValue[pos..];
      numValue, decimalPart, colons := ScanFrom(jsValue, pos);
    }

    method ScanFrom(jsValue: string, start: nat) returns (numValue: string, decimalPart: string, colons: nat)
      requires start <= |jsValue|
      ensures AllDigits(numValue) && Scan(jsValue[start..]) == Scanned(numValue, decimalPart, colons)
    {
      var pos := start;
      numValue, decimalPart, colons := "", "", 0;
      ghost var all := Scan(jsValue[start..]);
      while pos < |jsValue|
        invariant pos <= |jsValue| && AllDigits(numValue) && (pos < |jsValue| ==> decimalPart == "")
        invariant Found(all, jsValue, pos, numValue, decimalPart, colons)
      {
        var c := jsValue[pos];
        FoundNext(all, jsValue, pos, numValue, colons);
        if IsDigit(c) {
          numValue := numValue + [c];
        } else if c == '.' {
          decimalPart := jsValue[pos + 1..];
          pos := |jsValue| - 1;
        } else if c == ':' {
          colons := colons + 1;
        } else if IsLetter(c) {
          pos := |jsValue| - 1;
        }
        pos := pos + 1;
      }
      assert jsValue[|jsValue|..] == [];
    }

    method SetMicroseconds(decimalPart: string)
      requires AllDigits(decimalPart)
      modifies this`microsec
      ensures microsec == Microseconds(decimalPart)
    {
      var decimalLength := |decimalPart|;
      microsec := Number(decimalPart);
      while decimalLength > 6
        invariant |decimalPart| > 6 ==>
                    decimalLength >= 6 && microsec == Cut(Number(decimalPart), |decimalPart| - decimalLength)
        invariant |decimalPart| <= 6 ==> decimalLength == |decimalPart| && microsec == Number(decimalPart)
      {
        CutOnce(Number(decimalPart), |decimalPart| - decimalLength);
        microsec := microsec / 10;
        decimalLength := decimalLength - 1;
      }
      while decimalLength < 6
        invariant decimalLength <= 6 && Grown(microsec, 6 - decimalLength) == Microseconds(decimalPart)
      {
        GrownOnce(microsec, 6 - decimalLength - 1);
        microsec := microsec * 10;
        decimalLength := decimalLength + 1;
      }
    }

    /** Sets a time from a string. What comes after a point must be digits. */
    method InitializeFromTimeString(jsValue: string)
      requires AllDigits(Scan(Unsigned(jsValue)).decimalPart)
      modifies this
      ensures fsp == old(fsp)
      ensures var found := Scan(Unsigned(jsValue)); var number := Number(found.digits);
              && isNaN == (found.digits == "")
              && sign == (if jsValue != "" && jsValue[0] == '-' && number > 0 then -1 else old(sign))
              && microsec == (if Number(found.decimalPart) > 0 then Microseconds(found.decimalPart) else old(microsec))
              && (!isNaN && (number >= 10000 || found.colons != 1) ==>
                    hour == number / 10000 && minute == number / 100 % 100 && second == number % 100)
              && (!isNaN && number < 10000 && found.colons == 1 ==>
                    hour == number / 100 && minute == number % 100 && second == 0)
    {
      var negative, numValue, decimalPart, colons := ScanString(jsValue);
      var number := Number(numValue);
      isNaN := numValue == "";
      if negative && number > 0 {
        sign := -1;
      }
      SetClock(number, colons);
      if Number(decimalPart) > 0 {
        SetMicroseconds(decimalPart);
      }
    }

    method SetClock(number: nat, colons: nat)
      modifies this`hour, this`minute, this`second
      ensures isNaN || (number < 10000 && colons == 1)
              || (hour == number / 10000 && minute == number / 100 % 100 && second == number % 100)
      ensures isNaN || number >= 10000 || colons != 1 || (hour == number / 100 && minute == number % 100 && second == 0)
    {
      hour, minute, second := number / 10000, number / 100 % 100, number % 100;
      if hour == 0 && colons == 1 && !isNaN {
        hour := minute;
        minute := second;
        second := 0;
      }
    }

    method TwoDigitString(n: nat) returns (s: string)
      ensures s == Two(n)
    {
      s := "";
      if n < 10 {
        s := "0";
      }
      s := s + Digits(n);
      assert n < 10 ==> |Digits(n)| == 1 && Padded("0" + Digits(n), 2) == "0" + Digits(n);
      assert n >= 10 ==> |Digits(n)| >= 2;
    }

    method ToTimeString() returns (strTime: string)
      requires fsp <= 6
      ensures strTime == Text(Value(), fsp)
    {
      strTime := "";
      if sign == -1 {
        strTime := "-";
      }
      var h := TwoDigitString(hour);
      var m := TwoDigitString(minute);
      var s := TwoDigitString(second);
      var fraction := "";
      if fsp > 0 {
        fraction := FractionString();
      }
      strTime := strTime + Clock(h, m, s, fraction);
    }

    method CutToPrecision() returns (fsec: nat)
      requires 0 < fsp <= 6
      ensures fsec == Cut(microsec, 6 - fsp)
    {
      var k := fsp;
      fsec := microsec;
      ghost var cut: nat := 0;
      while k < 6
        invariant k <= 6 && cut == k - fsp && fsec == Cut(microsec, cut)
      {
        CutOnce(microsec, cut);
        fsec := fsec / 10;
        k := k + 1;
        cut := cut + 1;
      }
    }

    method FractionDigitString() returns (digits: string)
      requires 0 < fsp <= 6
      ensures digits == FractionDigits(microsec, fsp)
    {
      digits := "";
      if microsec > 0 {
        var fsec := CutToPrecision();
        digits := Digits(fsec);
      }
    }

    method FractionString() returns (s: string)
      requires 0 < fsp <= 6
      ensures s == Fraction(Value(), fsp)
    {
      var digits := FractionDigitString();
      s := PadWithZeros(digits, fsp);
      s := "." + s;
    }

    method PadWithZeros(digits: string, width: nat) returns (s: string)
      requires AllDigits(digits)
      ensures s == Padded(digits, width)
    {
      s := digits;
      while |s| < width
        invariant AllDigits(s) && Padded(s, width) == Padded(digits, width)
      {
        s := "0" + s;
      }
    }

    /** A time is read back from its string, in whole units of its precision, and with its sign unless it
        is negative and less than a second. */
    method ReadBack() returns (time: MySQLTime)
      requires Proper(Value(), fsp) && (sign == 1 || sign == -1)
      ensures !time.isNaN && time.hour == hour && time.minute == minute && time.second == second
      ensures time.sign == sign <==> sign == 1 || hour > 0 || minute > 0 || second > 0
      ensures time.microsec == Rounded(microsec, fsp)
    {
      var s := ToTimeString();
      SignIsRead(Value(), fsp);
      TextIsRead(Value(), fsp);
      FractionIsRead(Value(), fsp);
      SecondsSplit(Value());
      time := new MySQLTime();
      time.InitializeFromTimeString(s);
    }
  }
}
