/** The shuttle selection screen: whether the bus has already boarded, and the route line. */
module ShuttleSelect {
  import opened Text
  import opened Types
  import Constants

  /** 20 s for the random delay plus 20 s for a late request. */
  function TotalDelay(s: SessionState): (d: int)
    ensures d == 0 || d == 20 || d == 40
    ensures d == 40 <==> s.hasRandomDelay && s.isLateRequested
    ensures d == 0 <==> !s.hasRandomDelay && !s.isLateRequested
  {
    (if s.hasRandomDelay then 20 else 0) + (if s.isLateRequested then 20 else 0)
  }

  /** `t0 || 0`: a missing or zero start is the epoch. */
  function StartOrZero(s: SessionState): int {
    if s.t0.Some? then s.t0.value else 0
  }

  /** The boarded flag the mount effect sets; it stays false when no session is stored. */
  function IsBoarded(saved: Option<SessionState>, now: int): bool {
    match saved
    case None => false
    case Some(s) => (now - StartOrZero(s)) / 1000 >= 30 + TotalDelay(s)
  }

  /** Boarded iff at least 30 s plus the total delay have passed since the start, in whole seconds. */
  lemma IsBoardedIff(s: SessionState, now: int)
    ensures IsBoarded(Some(s), now) <==> now - StartOrZero(s) >= (30 + TotalDelay(s)) * 1000
    ensures !IsBoarded(None, now)
  {
  }

  /** Once boarded, later instants are boarded too. */
  lemma IsBoardedMonotone(saved: Option<SessionState>, now1: int, now2: int)
    requires now1 <= now2 && IsBoarded(saved, now1)
    ensures IsBoarded(saved, now2)
  {
    if saved.Some? {
      IsBoardedIff(saved.value, now1);
      IsBoardedIff(saved.value, now2);
    }
  }

  function StopNames(stops: seq<ShuttleStop>): (names: seq<string>)
    ensures |names| == |stops|
    ensures forall i :: 0 <= i < |stops| ==> names[i] == stops[i].name
  {
    seq(|stops|, i requires 0 <= i < |stops| => stops[i].name)
  }

  const Arrow: string := " → "

  /** `SHUTTLE_STOPS.map(s => s.name).join(' → ')`. */
  function RouteText(): string {
    Join(StopNames(Constants.Stops), Arrow)
  }

  /** Each stop name sits at its place in the text, separated from the next by the arrow. */
  lemma RouteTextOrder(k: nat)
    requires k < |Constants.Stops|
    ensures var names := StopNames(Constants.Stops);
      var o := JoinOffset(names, Arrow, k);
      o + |names[k]| <= |RouteText()|
      && RouteText()[o..o + |names[k]|] == Constants.Stops[k].name
      && (k + 1 < |names| ==>
            JoinOffset(names, Arrow, k + 1) <= |RouteText()|
            && RouteText()[o + |names[k]|..JoinOffset(names, Arrow, k + 1)] == Arrow)
  {
    var names := StopNames(Constants.Stops);
    JoinElementAt(names, Arrow, k);
    if k + 1 < |names| {
      JoinSeparatorAt(names, Arrow, k);
    }
  }

  /** The route line, written out. */
  lemma RouteTextValue()
    ensures RouteText() == "이매촌 → 아름마을 → 탑마을 → 봇들마을 → 대치학원"
  {
    var names := StopNames(Constants.Stops);
    assert names == ["이매촌", "아름마을", "탑마을", "봇들마을", "대치학원"];
    JoinFive(names[0], names[1], names[2], names[3], names[4], Arrow);
    assert names == [names[0], names[1], names[2], names[3], names[4]];
    RouteLiteral(names[0], names[1], names[2], names[3], names[4], Arrow);
  }

  /** A join of five elements, written out. */
  lemma JoinFive(a: string, b: string, c: string, d: string, e: string, sep: string)
    ensures Join([a, b, c, d, e], sep) == a + sep + b + sep + c + sep + d + sep + e
  {
    assert [a, b, c, d, e][1..] == [b, c, d, e];
    assert [b, c, d, e][1..] == [c, d, e];
    assert [c, d, e][1..] == [d, e];
    assert [d, e][1..] == [e];
    assert Join([d, e], sep) == d + sep + e;
    assert Join([c, d, e], sep) == c + sep + (d + sep + e);
    assert Join([b, c, d, e], sep) == b + sep + (c + sep + (d + sep + e));
    assert Join([a, b, c, d, e], sep) == a + sep + (b + sep + (c + sep + (d + sep + e)));
  }

  /** Literal step of the worked example RouteTextValue. */
  lemma RouteLiteral(a: string, b: string, c: string, d: string, e: string, sep: string)
    requires a == "이매촌" && b == "아름마을" && c == "탑마을" && d == "봇들마을" && e == "대치학원"
    requires sep == " → "
    ensures a + sep + b + sep + c + sep + d + sep + e == "이매촌 → 아름마을 → 탑마을 → 봇들마을 → 대치학원"
  {
  }
}
