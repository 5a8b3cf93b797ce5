/** `formatTime`: a number of seconds shown as "Hh Mm" or "Mm". */
module TimeFormat {
  import opened Text

  /** The quotient of `a / b` rounded toward zero, which JavaScript's `%` pairs with. */
  function JsQuot(a: int, b: int): int
    requires b > 0
  {
    if a >= 0 then a / b else -((-a) / b)
  }

  /** JavaScript's `%` operator: the remainder takes the sign of the dividend. */
  function JsRem(a: int, b: int): (r: int)
    requires b > 0
    ensures a >= 0 ==> r == a % b
    ensures a < 0 ==> -b < r <= 0
    ensures a == b * JsQuot(a, b) + r
  {
    if a >= 0 then a % b else -((-a) % b)
  }

  /** formatTime(seconds). Math.floor(x / 3600) is Dafny's `/` for a positive divisor;
      the inner `seconds % 3600` is JavaScript's remainder. Zero gives "0m". */
  function FormatTime(seconds: int): string {
    if seconds == 0 then "0m"
    else
      var hours := seconds / 3600;
      var minutes := JsRem(seconds, 3600) / 60;
      if hours > 0 then IntToString(hours) + "h " + IntToString(minutes) + "m"
      else IntToString(minutes) + "m"
  }

  /** The text for h whole hours and m whole minutes. */
  function Shown(h: nat, m: nat): string {
    if h > 0 then NatToString(h) + "h " + NatToString(m) + "m" else NatToString(m) + "m"
  }

  /** For a non-negative count, formatTime shows the whole hours and the whole minutes left
      over, and drops the seconds. */
  lemma FormatTimeShows(s: int)
    requires s >= 0
    ensures FormatTime(s) == Shown(s / 60 / 60, s / 60 % 60)
  {
    var q, r := s / 60, s % 60;
    var h, m := q / 60, q % 60;
    assert s == 3600 * h + 60 * m + r;
    assert s / 3600 == h && s % 3600 == 60 * m + r;
    assert (60 * m + r) / 60 == m;
  }

  /** "h" appears in the text exactly when there is at least one whole hour. */
  lemma ShownHasHours(h: nat, m: nat)
    ensures 'h' in Shown(h, m) <==> h > 0
  {
    var t := Shown(h, m);
    if h > 0 {
      assert t[|NatToString(h)|] == 'h';
    } else {
      forall i | 0 <= i < |t| ensures t[i] != 'h' {
        if i < |NatToString(m)| {
          assert IsDigit(t[i]);
        }
      }
    }
  }

  lemma ShownInjective(h1: nat, m1: nat, h2: nat, m2: nat)
    requires Shown(h1, m1) == Shown(h2, m2)
    ensures h1 == h2 && m1 == m2
  {
    ShownHasHours(h1, m1);
    ShownHasHours(h2, m2);
    var d1, d2 := NatToString(m1), NatToString(m2);
    if h1 > 0 {
      assert Shown(h1, m1) == NatToString(h1) + ['h'] + (" " + d1 + "m");
      assert Shown(h2, m2) == NatToString(h2) + ['h'] + (" " + d2 + "m");
      DigitsBeforeMarker(NatToString(h1), NatToString(h2), 'h', " " + d1 + "m", " " + d2 + "m");
      NatToStringInjective(h1, h2);
      assert d1 == (" " + d1 + "m")[1..|d1| + 1] && d2 == (" " + d2 + "m")[1..|d2| + 1];
    } else {
      assert d1 == Shown(h1, m1)[..|d1|] && d2 == Shown(h2, m2)[..|d2|];
    }
    NatToStringInjective(m1, m2);
  }

  /** formatTime has minute precision: two non-negative durations are shown alike exactly
      when they hold the same number of whole minutes. */
  lemma FormatTimeMinutePrecision(a: int, b: int)
    requires a >= 0 && b >= 0
    ensures FormatTime(a) == FormatTime(b) <==> a / 60 == b / 60
  {
    FormatTimeShows(a);
    FormatTimeShows(b);
    if FormatTime(a) == FormatTime(b) {
      ShownInjective(a / 60 / 60, a / 60 % 60, b / 60 / 60, b / 60 % 60);
      assert a / 60 == 60 * (a / 60 / 60) + a / 60 % 60;
      assert b / 60 == 60 * (b / 60 / 60) + b / 60 % 60;
    }
  }

  /** Negative durations (a corrupted counter) show only a negative minute count. */
  lemma FormatTimeNegative(s: int)
    requires s < 0
    ensures FormatTime(s) == IntToString(JsRem(s, 3600) / 60) + "m"
    ensures -60 <= JsRem(s, 3600) / 60 <= 0
  {
  }
}
