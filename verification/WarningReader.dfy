/** A reader of slow warnings that knows nothing of the code that prints them: what
    a page gets out of the JSON text. */
module WarningReader {
  import opened Bytes

  function AsText(bytes: seq<byte>): (t: string)
    ensures |t| == |bytes|
  {
    seq(|bytes|, i requires 0 <= i < |bytes| => bytes[i] as char)
  }

  predicate IsDigit(c: char) {
    '0' <= c <= '9'
  }

  function DigitValue(c: char): nat
    requires IsDigit(c)
  {
    c as int - '0' as int
  }

  /** The number of digits in front of `t`. */
  function Digits(t: string): (n: nat)
    ensures n <= |t|
  {
    if t != [] && IsDigit(t[0]) then 1 + Digits(t[1..]) else 0
  }

  /** The value of a string of digits: each stands for ten times the one behind it. */
  function DigitsValue(t: string): nat
    requires forall c | c in t :: IsDigit(c)
  {
    if t == [] then 0
    else 10 * DigitsValue(t[..|t| - 1]) + DigitValue(t[|t| - 1])
  }

  /** A JSON number that is a natural, as the whole of `t`. */
  predicate IsNumber(t: string) {
    t != [] && (forall c | c in t :: IsDigit(c)) && (t[0] == '0' ==> |t| == 1)
  }

  /** `id` and `isSlow` of a slow warning; nothing else is accepted. */
  function ReadWarning(bytes: seq<byte>): Option<(nat, bool)> {
    var t, head := AsText(bytes), "{\"type\":\"slow\",\"sessionId\":";
    if !(head <= t) then None
    else
      var behind := t[|head|..];
      var k := Digits(behind);
      if !IsNumber(behind[..k]) then None
      else if behind[k..] == ",\"isSlow\":true}" then Some((DigitsValue(behind[..k]), true))
      else if behind[k..] == ",\"isSlow\":false}" then Some((DigitsValue(behind[..k]), false))
      else None
  }

  lemma AsTextAppend(a: seq<byte>, b: seq<byte>)
    ensures AsText(a + b) == AsText(a) + AsText(b)
  {
  }

  lemma {:induction false} DigitsInFront(number: string, rest: string)
    requires forall c | c in number :: IsDigit(c)
    requires rest == [] || !IsDigit(rest[0])
    ensures Digits(number + rest) == |number|
  {
    if number == [] {
      assert number + rest == rest;
    } else {
      assert (number + rest)[1..] == number[1..] + rest;
      DigitsInFront(number[1..], rest);
    }
  }

  /** A text with the fixed fields, a number and one of the two words is read so. */
  lemma ReadsBack(bytes: seq<byte>, number: string, isSlow: bool)
    requires IsNumber(number)
    requires AsText(bytes) == "{\"type\":\"slow\",\"sessionId\":" + (number
                              + if isSlow then ",\"isSlow\":true}" else ",\"isSlow\":false}")
    ensures ReadWarning(bytes) == Some((DigitsValue(number), isSlow))
  {
    var tail := if isSlow then ",\"isSlow\":true}" else ",\"isSlow\":false}";
    var head := "{\"type\":\"slow\",\"sessionId\":";
    Behind(AsText(bytes), head, number, tail);
    DigitsInFront(number, tail);
    assert ",\"isSlow\":true}"[10] == 't' && ",\"isSlow\":false}"[10] == 'f';
  }

  lemma Behind(t: string, head: string, number: string, tail: string)
    requires t == head + (number + tail)
    ensures head <= t && t[|head|..] == number + tail
    ensures (number + tail)[..|number|] == number && (number + tail)[|number|..] == tail
  {
  }
}
