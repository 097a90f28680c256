/** The `message_box` helper: chooses a window title from a message kind. */
module Messages {
  import opened Wrappers
  import opened Effects

  const ErrorTitle := "Error!"
  const InfoTitle := "PDF Merger"

  /** What a shown message box hands back: its return value and the box itself. */
  datatype Shown = Shown(ret: int, box: Action)

  /** The title for a message kind; any kind other than "error" and "info"
      raises before anything is shown. */
  function Title(kind: string): (r: Result<string, Error>)
    ensures r.Success? <==> kind == "error" || kind == "info"
    ensures r.Success? ==> (r.value == ErrorTitle <==> kind == "error")
    ensures r.Success? ==> (r.value == InfoTitle <==> kind == "info")
    ensures r.Failure? ==> r.error == ValueError("Type undefined for message box. Received " + kind)
  {
    if kind == "error" then Success(ErrorTitle)
    else if kind == "info" then Success(InfoTitle)
    else Failure(ValueError("Type undefined for message box. Received " + kind))
  }

  /** Shows a box with the title for `kind` and text `msg`, then returns -1. */
  function MessageBox(kind: string, msg: string): (r: Result<Shown, Error>)
    ensures r.Success? <==> kind == "error" || kind == "info"
    ensures r.Success? ==> r.value.ret == -1 && r.value.box.ShowMessage? && r.value.box.text == msg
    ensures kind == "error" ==> r.value.box.title == "Error!"
    ensures kind == "info" ==> r.value.box.title == "PDF Merger"
    ensures r.Failure? ==> r.error == ValueError("Type undefined for message box. Received " + kind)
  {
    match Title(kind)
    case Success(title) => Success(Shown(-1, ShowMessage(title, msg)))
    case Failure(e) => Failure(e)
  }

  /** The two message kinds can never be confused: their titles differ, and
      every other kind is refused. */
  lemma TitlesDistinguishKinds(k1: string, k2: string)
    requires Title(k1).Success? && Title(k2).Success?
    ensures Title(k1) == Title(k2) <==> k1 == k2
  {
  }

  /** The character for a decimal digit. */
  function DigitChar(d: nat): (c: char)
    requires d < 10
    ensures '0' <= c <= '9' && DigitValue(c) == d
  {
    ('0' as int + d) as char
  }

  /** The value of a decimal digit character. */
  function DigitValue(c: char): int {
    c as int - '0' as int
  }

  /** Every character is a decimal digit. */
  predicate AllDigits(s: string) {
    forall i :: 0 <= i < |s| ==> '0' <= s[i] <= '9'
  }

  /** The number a string of decimal digits denotes, most significant first. */
  function ValueOf(s: string): int {
    if s == [] then 0 else ValueOf(s[..|s| - 1]) * 10 + DigitValue(s[|s| - 1])
  }

  /** Decimal digits of a natural number as Python's `str` writes them: no
      leading zero unless the number is 0, and reading them back gives the
      number. */
  function Digits(n: nat): (s: string)
    ensures |s| >= 1 && AllDigits(s)
    ensures s[0] == '0' <==> n == 0
    ensures n == 0 ==> s == "0"
    ensures ValueOf(s) == n
    decreases n
  {
    if n < 10 then [DigitChar(n)]
    else
      var high := Digits(n / 10);
      var s := high + [DigitChar(n % 10)];
      assert s[..|s| - 1] == high;
      s
  }

  /** Python's `str` of an integer, as used in an f-string: a minus sign
      exactly for a negative number, then the digits of its magnitude. */
  function Decimal(n: int): (s: string)
    ensures |s| >= 1
    ensures s[0] == '-' <==> n < 0
    ensures n == 0 ==> s == "0"
    ensures var digits := if n < 0 then s[1..] else s;
      && |digits| >= 1 && AllDigits(digits)
      && (digits[0] == '0' <==> n == 0)
      && ValueOf(digits) == if n < 0 then -n else n
  {
    if n < 0 then
      var s := "-" + Digits(-n);
      assert s[1..] == Digits(-n);
      s
    else Digits(n)
  }

  /** Different integers are written differently: the sign and the value
      of the digits give the number back. */
  lemma DecimalInjective(m: int, n: int)
    ensures Decimal(m) == Decimal(n) <==> m == n
  {
  }
}
