/** `escapeMarkdown` of bot.js: a backslash before every character of the
    Telegram Bot API MarkdownV2 reserved set, so that values read from an
    invoice print literally inside a formatted message. */
module TelegramMarkdown {
  import opened Wrappers
  import opened Json

  /** The bracket expression of the escaping pattern:
      _ * [ ] ( ) ~ ` > # + = | { } . ! - */
  predicate IsReserved(c: char) {
    || c == '_' || c == '*' || c == '[' || c == ']' || c == '(' || c == ')'
    || c == '~' || c == '`' || c == '>' || c == '#' || c == '+' || c == '='
    || c == '|' || c == '{' || c == '}' || c == '.' || c == '!' || c == '-'
  }

  /** How many reserved characters s holds. */
  function CountReserved(s: string): (n: nat)
    ensures n <= |s|
  {
    if |s| == 0 then 0 else (if IsReserved(s[0]) then 1 else 0) + CountReserved(s[1..])
  }

  /** `text.replace(/[...]/g, '\\$&')` on a string. */
  function EscapeText(s: string): (r: string)
    ensures |r| == |s| + CountReserved(s)
    ensures |r| > 0 ==> !IsReserved(r[0])
    ensures forall i :: 0 <= i < |r| && IsReserved(r[i]) ==> i > 0 && r[i - 1] == '\\'
  {
    if |s| == 0 then ""
    else
      var rest := EscapeText(s[1..]);
      if IsReserved(s[0]) then
        var r := ['\\', s[0]] + rest;
        assert forall i :: 2 <= i < |r| ==> r[i] == rest[i - 2];
        r
      else
        var r := [s[0]] + rest;
        assert forall i :: 1 <= i < |r| ==> r[i] == rest[i - 1];
        r
  }

  /** The inverse reading of an escaped text: a backslash that stands before a
      reserved character is dropped, everything else is kept. */
  function Unescape(r: string): (s: string)
    ensures |s| <= |r|
  {
    if |r| == 0 then ""
    else if |r| >= 2 && r[0] == '\\' && IsReserved(r[1]) then [r[1]] + Unescape(r[2..])
    else [r[0]] + Unescape(r[1..])
  }

  /** Unescaping the escaped text gives the original back. */
  lemma {:induction false} UnescapeEscape(s: string)
    ensures Unescape(EscapeText(s)) == s
  {
    if |s| > 0 {
      var rest := EscapeText(s[1..]);
      UnescapeEscape(s[1..]);
      if IsReserved(s[0]) {
        var r := ['\\', s[0]] + rest;
        assert r[0] == '\\' && r[1] == s[0] && r[2..] == rest;
        assert Unescape(r) == [s[0]] + Unescape(rest);
      } else {
        var r := [s[0]] + rest;
        assert r[1..] == rest;
        assert |r| >= 2 ==> r[1] == rest[0];
        assert Unescape(r) == [s[0]] + Unescape(rest);
      }
      assert [s[0]] + s[1..] == s;
    }
  }

  /** Different texts never escape to the same text. */
  lemma EscapeInjective(a: string, b: string)
    requires EscapeText(a) == EscapeText(b)
    ensures a == b
  {
    UnescapeEscape(a);
    UnescapeEscape(b);
  }

  /** Escaping works character by character: it distributes over concatenation. */
  lemma {:induction false} EscapeConcat(a: string, b: string)
    ensures EscapeText(a + b) == EscapeText(a) + EscapeText(b)
  {
    if |a| > 0 {
      var head := if IsReserved(a[0]) then ['\\', a[0]] else [a[0]];
      assert (a + b)[0] == a[0] && (a + b)[1..] == a[1..] + b;
      assert EscapeText(a + b) == head + EscapeText(a[1..] + b);
      assert EscapeText(a) == head + EscapeText(a[1..]);
      EscapeConcat(a[1..], b);
    } else {
      assert a + b == b;
    }
  }

  /** One character escapes to a backslash and itself when reserved, and to
      itself otherwise. */
  lemma EscapeChar(c: char)
    ensures EscapeText([c]) == if IsReserved(c) then ['\\', c] else [c]
  {
    assert [c][1..] == "";
  }

  /** Text without reserved characters, backslashes included, is left as it is. */
  lemma {:induction false} EscapePlainIdentity(s: string)
    requires forall i :: 0 <= i < |s| ==> !IsReserved(s[i])
    ensures EscapeText(s) == s
  {
    if |s| > 0 {
      EscapePlainIdentity(s[1..]);
      assert [s[0]] + s[1..] == s;
    }
  }

  /** `escapeMarkdown(text)`: a falsy value, `undefined` (None) included, comes
      back unchanged; anything else is converted with `toString()` and
      escaped. */
  function EscapeMarkdown(v: Option<Json>): (r: Option<Json>)
    ensures !TruthyOpt(v) ==> r == v
    ensures TruthyOpt(v) ==> r.Some? && r.value.JString? && Unescape(r.value.s) == ToJsString(v.value)
    ensures TruthyOpt(v) ==> |r.value.s| == |ToJsString(v.value)| + CountReserved(ToJsString(v.value))
  {
    if !TruthyOpt(v) then v
    else
      UnescapeEscape(ToJsString(v.value));
      Some(JString(EscapeText(ToJsString(v.value))))
  }

  /** An invoice field the model returned as a number prints as its digits; a
      negative one gets its minus sign escaped. Either way the digits read back
      as the number. Stated for the integers a JavaScript number holds exactly. */
  lemma EscapeNumber(n: int)
    requires n != 0
    requires -MaxSafeInteger <= n <= MaxSafeInteger
    ensures var r := EscapeMarkdown(Some(JNumber(n))).value.s;
      && (n > 0 ==> r == NatToDecimal(n) && DecimalValue(r) == n)
      && (n < 0 ==> r == ['\\', '-'] + NatToDecimal(-n) && DecimalValue(r[2..]) == -n)
  {
    if n > 0 {
      EscapePositive(n);
    } else {
      EscapeNegative(n);
    }
  }

  lemma EscapePositive(n: int)
    requires n > 0
    ensures EscapeText(ToJsString(JNumber(n))) == NatToDecimal(n)
    ensures DecimalValue(NatToDecimal(n)) == n
  {
    NumberStringRoundTrip(n);
    EscapePlainIdentity(NatToDecimal(n));
  }

  lemma EscapeNegative(n: int)
    requires n < 0
    ensures EscapeText(ToJsString(JNumber(n))) == ['\\', '-'] + NatToDecimal(-n)
    ensures DecimalValue(NatToDecimal(-n)) == -n
  {
    var d := NatToDecimal(-n);
    var t := ToJsString(JNumber(n));
    NumberStringRoundTrip(n);
    assert t == "-" + d;
    assert t[1..] == d;
    EscapePlainIdentity(d);
    EscapeConcat("-", d);
    EscapeChar('-');
  }
}
