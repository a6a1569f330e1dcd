/** The letters and digits from which both Base64 alphabets are put together. */
module Ascii {
  function Upper(): (s: string)
    ensures |s| == 26
  {
    "ABCDEFGHIJKLM" + "NOPQRSTUVWXYZ"
  }

  function Lower(): (s: string)
    ensures |s| == 26
  {
    "abcdefghijklm" + "nopqrstuvwxyz"
  }

  function Digits(): (s: string)
    ensures |s| == 10
  {
    "0123456789"
  }

  lemma Letter(i: nat)
    requires i < 26
    ensures Upper()[i] as int == 'A' as int + i && Lower()[i] as int == 'a' as int + i
  {
  }

  lemma Digit(i: nat)
    requires i < 10
    ensures Digits()[i] as int == '0' as int + i
  {
  }
}
