/** `formatPhoneNumber`: a bare ten-digit number becomes `(ddd) ddd-dddd`; any other input
    is returned as it was. */
module Phone {
  import opened Text

  /** `phone.replace(/\D/g, '')`: the ASCII digits of s, in order. */
  function Digits(s: string): (d: string)
    ensures AllDigits(d) && |d| <= |s|
  {
    if s == [] then []
    else (if IsDigit(s[0]) then [s[0]] else []) + Digits(s[1..])
  }

  /** The template `(${d[0..3]}) ${d[3..6]}-${d[6..]}` for a ten-digit string. */
  function Mask(d: string): string
    requires |d| == 10
  {
    "(" + d[..3] + ") " + d[3..6] + "-" + d[6..]
  }

  /** A number with exactly ten digits becomes the fourteen-character mask carrying those
      digits; any other input is returned as it was. */
  function FormatPhoneNumber(phone: string): (r: string)
    ensures |Digits(phone)| != 10 ==> r == phone
    ensures |Digits(phone)| == 10 ==> |r| == 14 && Digits(r) == Digits(phone)
  {
    var d := Digits(phone);
    if |d| == 10 then
      MaskDigits(d);
      Mask(d)
    else phone
  }

  /** One character keeps exactly its digit; with `DigitsAppend` this fixes `Digits` as the
      digits of the input in their order. */
  lemma DigitsOfChar(c: char)
    ensures Digits([c]) == if IsDigit(c) then [c] else []
  {
  }

  lemma {:induction false} DigitsAppend(a: string, b: string)
    ensures Digits(a + b) == Digits(a) + Digits(b)
  {
    if a == [] {
      assert a + b == b;
    } else {
      assert (a + b)[0] == a[0] && (a + b)[1..] == a[1..] + b;
      DigitsAppend(a[1..], b);
    }
  }

  lemma {:induction false} DigitsOfDigits(s: string)
    requires AllDigits(s)
    ensures Digits(s) == s
  {
    if s != [] {
      assert AllDigits(s[1..]);
      DigitsOfDigits(s[1..]);
      assert s == [s[0]] + s[1..];
    }
  }

  /** The mask puts the three groups of digits between fixed punctuation. */
  lemma MaskLayout(d: string)
    requires |d| == 10
    ensures var r := Mask(d);
            && |r| == 14
            && r[0] == '(' && r[4] == ')' && r[5] == ' ' && r[9] == '-'
            && r[1..4] == d[..3] && r[6..9] == d[3..6] && r[10..] == d[6..]
  {
  }

  /** The digits of a masked number are the digits put in. */
  lemma MaskDigits(d: string)
    requires |d| == 10 && AllDigits(d)
    ensures Digits(Mask(d)) == d
  {
    var a, b, c := d[..3], d[3..6], d[6..];
    DigitsOfDigits(a);
    DigitsOfDigits(b);
    DigitsOfDigits(c);
    var p1 := "(" + a;
    var p2 := p1 + ") ";
    var p3 := p2 + b;
    var p4 := p3 + "-";
    assert Mask(d) == p4 + c;
    assert Digits("(") == [] && Digits(") ") == [] && Digits("-") == [];
    DigitsAppend("(", a);
    DigitsAppend(p1, ") ");
    DigitsAppend(p2, b);
    DigitsAppend(p3, "-");
    DigitsAppend(p4, c);
    assert a + b + c == d;
  }

  /** With exactly ten digits the result is the mask `(ddd) ddd-dddd` holding those digits
      in order; otherwise the input comes back unchanged. */
  lemma FormatShape(phone: string)
    ensures var d, r := Digits(phone), FormatPhoneNumber(phone);
            && (|d| != 10 ==> r == phone)
            && (|d| == 10 ==>
                  && |r| == 14
                  && r[0] == '(' && r[4] == ')' && r[5] == ' ' && r[9] == '-'
                  && r[1..4] == d[..3] && r[6..9] == d[3..6] && r[10..] == d[6..]
                  && Digits(r) == d)
  {
    var d := Digits(phone);
    if |d| == 10 {
      MaskLayout(d);
      MaskDigits(d);
    }
  }

  /** Formatting a formatted number changes nothing. */
  lemma FormatIdempotent(phone: string)
    ensures FormatPhoneNumber(FormatPhoneNumber(phone)) == FormatPhoneNumber(phone)
  {
    FormatShape(phone);
    var d := Digits(phone);
    if |d| == 10 {
      FormatShape(FormatPhoneNumber(phone));
    }
  }

  /** Two inputs with the same ten digits format alike, whatever separates the digits. */
  lemma FormatDependsOnDigitsOnly(p: string, q: string)
    requires Digits(p) == Digits(q) && |Digits(p)| == 10
    ensures FormatPhoneNumber(p) == FormatPhoneNumber(q)
  {
  }
}
