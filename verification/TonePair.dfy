/** The tone pair of material/dynamic/calculator.go: two roles ask for their tones in separate calls and must
    still come out apart. Tones are exact; contrast formulas and the foreground tone are given. */
module TonePair {
  import opened Wrappers

  datatype Polarity = Darker | Lighter | Nearer | Farther

  /** A role with what its closures return for one scheme. */
  datatype Role = Role(name: string, tone: real, contrast: Option<real>)

  datatype Pair = Pair(roleA: Role, roleB: Role, delta: real, polarity: Polarity, stayTogether: bool)

  datatype Scheme = Scheme(dark: bool, contrast: real)

  /** What the contrast formulas compute. */
  datatype Formulas = Formulas(ratio: (real, real) -> real, foreground: (real, real) -> real)

  predicate IsTone(t: real) {
    0.0 <= t <= 100.0
  }

  ghost predicate GivesTones(f: Formulas) {
    forall background, ratio :: IsTone(f.foreground(background, ratio))
  }

  function Clamp(low: real, high: real, value: real): real {
    if value < low then low else if value > high then high else value
  }

  function Max(a: real, b: real): real {
    if a >= b then a else b
  }

  function Min(a: real, b: real): real {
    if a <= b then a else b
  }

  function Direction(dark: bool): real {
    if dark then 1.0 else -1.0
  }

  datatype Tones = Tones(nearer: real, farther: real)

  predicate Awkward(t: real) {
    50.0 <= t < 60.0
  }

  /** The tones brought delta apart, the farther one first. */
  function Spread(dark: bool, delta: real, t: Tones): Tones {
    var dir := Direction(dark);
    if (t.farther - t.nearer) * dir >= delta then t
    else
      var farther := Clamp(0.0, 100.0, t.nearer + delta * dir);
      if (farther - t.nearer) * dir >= delta then Tones(t.nearer, farther)
      else Tones(Clamp(0.0, 100.0, farther - delta * dir), farther)
  }

  /** Both tones taken past the awkward zone, on the side the pair expands to. */
  function Moved(dark: bool, delta: real, t: Tones): Tones {
    if dark then Tones(60.0, Max(t.farther, 60.0 + delta)) else Tones(49.0, Min(t.farther, 49.0 - delta))
  }

  function Settled(dark: bool, delta: real, stayTogether: bool, given: Tones): Tones {
    var t := Spread(dark, delta, given);
    if Awkward(t.nearer) || (Awkward(t.farther) && stayTogether) then Moved(dark, delta, t)
    else if Awkward(t.farther) then t.(farther := if dark then 60.0 else 49.0)
    else t
  }

  /** The second half of the branch: spread the tones, then keep both out of the awkward zone. */
  method Settle(dark: bool, delta: real, stayTogether: bool, nearer: real, farther: real)
    returns (nTone: real, fTone: real)
    ensures Tones(nTone, fTone) == Settled(dark, delta, stayTogether, Tones(nearer, farther))
  {
    nTone, fTone := nearer, farther;
    var expansionDir := if dark then 1.0 else -1.0;
    if (fTone - nTone) * expansionDir < delta {
      fTone := Clamp(0.0, 100.0, nTone + delta * expansionDir);
      if (fTone - nTone) * expansionDir < delta {
        nTone := Clamp(0.0, 100.0, fTone - delta * expansionDir);
      }
    }
    if nTone >= 50.0 && nTone < 60.0 {
      if expansionDir > 0.0 {
        nTone := 60.0;
        fTone := Max(fTone, nTone + delta * expansionDir);
      } else {
        nTone := 49.0;
        fTone := Min(fTone, nTone + delta * expansionDir);
      }
    } else if fTone >= 50.0 && fTone < 60.0 {
      if stayTogether {
        if expansionDir > 0.0 {
          nTone := 60.0;
          fTone := Max(fTone, nTone + delta * expansionDir);
        } else {
          nTone := 49.0;
          fTone := Min(fTone, nTone + delta * expansionDir);
        }
      } else {
        if expansionDir > 0.0 { fTone := 60.0; } else { fTone := 49.0; }
      }
    }
  }

  // ---------------------------------------------------------------- the two calls

  predicate AIsNearer(scheme: Scheme, polarity: Polarity) {
    polarity == Nearer || (polarity == Lighter && !scheme.dark) || (polarity == Darker && scheme.dark)
  }

  function NearerRole(scheme: Scheme, pair: Pair): Role {
    if AIsNearer(scheme, pair.polarity) then pair.roleA else pair.roleB
  }

  function FartherRole(scheme: Scheme, pair: Pair): Role {
    if AIsNearer(scheme, pair.polarity) then pair.roleB else pair.roleA
  }

  /** One role's tone against the background both share. */
  function Contrasted(f: Formulas, scheme: Scheme, background: real, tone: real, contrast: real): real {
    if scheme.contrast < 0.0 || f.ratio(background, tone) < contrast then f.foreground(background, contrast)
    else tone
  }

  function Given(f: Formulas, scheme: Scheme, pair: Pair, background: Option<real>): Tones {
    var n, m := NearerRole(scheme, pair), FartherRole(scheme, pair);
    if background.Some? && n.contrast.Some? && m.contrast.Some? then
      Tones(Contrasted(f, scheme, background.value, n.tone, n.contrast.value),
            Contrasted(f, scheme, background.value, m.tone, m.contrast.value))
    else Tones(n.tone, m.tone)
  }

  /** The tones of a pair, told without asking who calls. */
  function PairTones(f: Formulas, scheme: Scheme, pair: Pair, background: Option<real>): Tones {
    Settled(scheme.dark, pair.delta, pair.stayTogether, Given(f, scheme, pair, background))
  }

  /** What one role gets; name is the caller's. */
  function ToneOf(f: Formulas, scheme: Scheme, pair: Pair, name: string, background: Option<real>): real {
    if name == NearerRole(scheme, pair).name then PairTones(f, scheme, pair, background).nearer
    else PairTones(f, scheme, pair, background).farther
  }

  /** One role's call. */
  method GetTone(f: Formulas, scheme: Scheme, pair: Pair, name: string, background: Option<real>)
    returns (tone: real)
    ensures tone == ToneOf(f, scheme, pair, name, background)
  {
    var decreasingContrast := scheme.contrast < 0.0;
    var aIsNearer := pair.polarity == Nearer || (pair.polarity == Lighter && !scheme.dark)
                     || (pair.polarity == Darker && scheme.dark);
    var nearer, farther := pair.roleA, pair.roleB;
    if !aIsNearer { nearer, farther := pair.roleB, pair.roleA; }
    var amNearer := name == nearer.name;
    var nTone, fTone := nearer.tone, farther.tone;
    if background.Some? && nearer.contrast.Some? && farther.contrast.Some? {
      var bgTone, nContrast, fContrast := background.value, nearer.contrast.value, farther.contrast.value;
      if f.ratio(bgTone, nTone) < nContrast { nTone := f.foreground(bgTone, nContrast); }
      if f.ratio(bgTone, fTone) < fContrast { fTone := f.foreground(bgTone, fContrast); }
      if decreasingContrast {
        nTone := f.foreground(bgTone, nContrast);
        fTone := f.foreground(bgTone, fContrast);
      }
    }
    nTone, fTone := Settle(scheme.dark, pair.delta, pair.stayTogether, nTone, fTone);
    tone := if amNearer then nTone else fTone;
  }

  // ---------------------------------------------------------------- what a pair promises

  /** Both are tones, the farther one delta further in the direction of expansion, neither awkward. */
  predicate WellApart(dark: bool, delta: real, t: Tones) {
    && IsTone(t.nearer) && IsTone(t.farther)
    && (t.farther - t.nearer) * Direction(dark) >= delta
    && !Awkward(t.nearer) && !Awkward(t.farther)
  }

  /** The distances a pair can keep. */
  predicate Keepable(dark: bool, stayTogether: bool, delta: real) {
    if dark then 0.0 <= delta <= 40.0 || (50.0 < delta <= 100.0 && (delta >= 60.0 || !stayTogether))
    else -1.0 < delta <= 49.0 || 60.0 <= delta <= 100.0
  }

  predicate AreTones(t: Tones) {
    IsTone(t.nearer) && IsTone(t.farther)
  }

  lemma KeepableIsKept(dark: bool, delta: real, stayTogether: bool, given: Tones)
    requires Keepable(dark, stayTogether, delta) && AreTones(given)
    ensures WellApart(dark, delta, Settled(dark, delta, stayTogether, given))
  {
  }

  /** A pair of tones that a distance outside the range breaks. */
  function Breaks(dark: bool, stayTogether: bool, delta: real): Tones {
    if delta > 100.0 then Tones(0.0, 0.0)
    else if dark then
      if delta < -10.0 then Tones(59.0, 50.0)
      else if delta < 0.0 then Tones(59.0, Max(50.0, 59.0 + delta))
      else if delta <= 50.0 then Tones(50.0, 100.0)
      else Tones(0.0, 50.0)
    else
      if delta < 0.0 then Tones(50.0, Min(59.0, 50.0 - delta))
      else Tones(59.5, 0.0)
  }

  /** A distance is kept for all tones exactly when it is keepable. */
  lemma KeepableExactly(dark: bool, delta: real, stayTogether: bool)
    ensures Keepable(dark, stayTogether, delta)
            <==> forall t | AreTones(t) :: WellApart(dark, delta, Settled(dark, delta, stayTogether, t))
  {
    if Keepable(dark, stayTogether, delta) {
      forall t | AreTones(t) ensures WellApart(dark, delta, Settled(dark, delta, stayTogether, t)) {
        KeepableIsKept(dark, delta, stayTogether, t);
      }
    } else {
      var t := Breaks(dark, stayTogether, delta);
      assert AreTones(t) && !WellApart(dark, delta, Settled(dark, delta, stayTogether, t));
    }
  }

  lemma GivenAreTones(f: Formulas, scheme: Scheme, pair: Pair, background: Option<real>)
    requires GivesTones(f) && IsTone(pair.roleA.tone) && IsTone(pair.roleB.tone)
    ensures AreTones(Given(f, scheme, pair, background))
  {
  }

  /** What the polarity of a pair asks of its roles' tones. The farther role is the one further from the surface,
      lighter in a dark scheme and darker in a light one. */
  predicate RolesApart(dark: bool, polarity: Polarity, delta: real, toneA: real, toneB: real) {
    match polarity
    case Lighter => toneA - toneB >= delta
    case Darker => toneB - toneA >= delta
    case Nearer => if dark then toneB - toneA >= delta else toneA - toneB >= delta
    case Farther => if dark then toneA - toneB >= delta else toneB - toneA >= delta
  }

  predicate NotAwkward(toneA: real, toneB: real) {
    && IsTone(toneA) && IsTone(toneB)
    && !(50.0 <= toneA < 60.0) && !(50.0 <= toneB < 60.0)
  }

  /** The two roles come out as the polarity asks, for every distance that can be kept and whatever the
      contrast asks for. */
  lemma RolesComeOutApart(f: Formulas, scheme: Scheme, pair: Pair, background: Option<real>)
    requires pair.roleA.name != pair.roleB.name && Keepable(scheme.dark, pair.stayTogether, pair.delta)
    requires GivesTones(f) && IsTone(pair.roleA.tone) && IsTone(pair.roleB.tone)
    ensures var toneA := ToneOf(f, scheme, pair, pair.roleA.name, background);
            var toneB := ToneOf(f, scheme, pair, pair.roleB.name, background);
            RolesApart(scheme.dark, pair.polarity, pair.delta, toneA, toneB) && NotAwkward(toneA, toneB)
  {
    GivenAreTones(f, scheme, pair, background);
    KeepableIsKept(scheme.dark, pair.delta, pair.stayTogether, Given(f, scheme, pair, background));
  }

  /** The two roles of a pair, asked one after the other over the same background. */
  method AskBoth(f: Formulas, scheme: Scheme, pair: Pair, background: Option<real>)
    returns (toneA: real, toneB: real)
    requires pair.roleA.name != pair.roleB.name
    ensures GivesTones(f) && IsTone(pair.roleA.tone) && IsTone(pair.roleB.tone)
            && Keepable(scheme.dark, pair.stayTogether, pair.delta)
            ==> RolesApart(scheme.dark, pair.polarity, pair.delta, toneA, toneB) && NotAwkward(toneA, toneB)
    ensures toneA == ToneOf(f, scheme, pair, pair.roleA.name, background)
    ensures toneB == ToneOf(f, scheme, pair, pair.roleB.name, background)
  {
    toneA := GetTone(f, scheme, pair, pair.roleA.name, background);
    toneB := GetTone(f, scheme, pair, pair.roleB.name, background);
    if GivesTones(f) && IsTone(pair.roleA.tone) && IsTone(pair.roleB.tone)
       && Keepable(scheme.dark, pair.stayTogether, pair.delta)
    {
      RolesComeOutApart(f, scheme, pair, background);
    }
  }

  // ---------------------------------------------------------------- which tones, exactly

  /** The tone a role asks for: its own, unless the pair has a background and contrasts, and either the scheme
      lowers contrast or its own tone has too little of it. */
  predicate Wants(f: Formulas, scheme: Scheme, role: Role, other: Role, background: Option<real>, tone: real) {
    if background == None || role.contrast == None || other.contrast == None then tone == role.tone
    else if scheme.contrast >= 0.0 && f.ratio(background.value, role.tone) >= role.contrast.value then tone == role.tone
    else tone == f.foreground(background.value, role.contrast.value)
  }

  /** A pair that needs no moving keeps the tones it was given. */
  lemma GoodTonesStay(dark: bool, delta: real, stayTogether: bool, given: Tones)
    requires WellApart(dark, delta, given)
    ensures Settled(dark, delta, stayTogether, given) == given
  {
  }

  lemma GivenAsWanted(f: Formulas, scheme: Scheme, pair: Pair, background: Option<real>, toneA: real, toneB: real)
    requires Wants(f, scheme, pair.roleA, pair.roleB, background, toneA)
    requires Wants(f, scheme, pair.roleB, pair.roleA, background, toneB)
    ensures Given(f, scheme, pair, background) ==
            if AIsNearer(scheme, pair.polarity) then Tones(toneA, toneB) else Tones(toneB, toneA)
  {
  }

  lemma ApartEitherWay(scheme: Scheme, polarity: Polarity, delta: real, toneA: real, toneB: real)
    requires RolesApart(scheme.dark, polarity, delta, toneA, toneB) && NotAwkward(toneA, toneB)
    ensures WellApart(scheme.dark, delta,
                      if AIsNearer(scheme, polarity) then Tones(toneA, toneB) else Tones(toneB, toneA))
  {
  }

  /** Roles that ask for tones as the polarity asks, neither awkward, get them. */
  lemma RolesGetWhatTheyWant(f: Formulas, scheme: Scheme, pair: Pair, background: Option<real>, toneA: real,
                             toneB: real)
    requires pair.roleA.name != pair.roleB.name
    requires Wants(f, scheme, pair.roleA, pair.roleB, background, toneA)
    requires Wants(f, scheme, pair.roleB, pair.roleA, background, toneB)
    requires RolesApart(scheme.dark, pair.polarity, pair.delta, toneA, toneB) && NotAwkward(toneA, toneB)
    ensures ToneOf(f, scheme, pair, pair.roleA.name, background) == toneA
    ensures ToneOf(f, scheme, pair, pair.roleB.name, background) == toneB
  {
    GivenAsWanted(f, scheme, pair, background, toneA, toneB);
    ApartEitherWay(scheme, pair.polarity, pair.delta, toneA, toneB);
    GoodTonesStay(scheme.dark, pair.delta, pair.stayTogether, Given(f, scheme, pair, background));
  }

  /** Which tones a pair settles on: the nearer one stays and the farther one goes just as far as it must. Short of
      room the farther one goes to the end and the nearer one makes way. What lands in the awkward zone goes
      to its edge: the farther one alone, or both when they stay together or the nearer one is in it. */
  lemma SettledExactly(dark: bool, delta: real, stayTogether: bool, given: Tones)
    requires AreTones(given)
    ensures var near, far := given.nearer, given.farther;
            var end, edge := if dark then 100.0 else 0.0, if dark then 60.0 else 49.0;
            var there := if dark then Max(far, near + delta) else Min(far, near - delta);
            var (n, m) := if 0.0 <= there <= 100.0 then (near, there)
                          else (if dark then Max(0.0, 100.0 - delta) else Min(100.0, delta), end);
            Settled(dark, delta, stayTogether, given) ==
            if 50.0 <= n < 60.0 || (stayTogether && 50.0 <= m < 60.0)
            then Tones(edge, if dark then Max(m, 60.0 + delta) else Min(m, 49.0 - delta))
            else if 50.0 <= m < 60.0 then Tones(n, edge)
            else Tones(n, m)
  {
  }

  /** The distances from 0 to 40 are keepable in every scheme. */
  lemma PairsStayApart(f: Formulas, scheme: Scheme, pair: Pair, background: Option<real>)
    requires pair.roleA.name != pair.roleB.name && 0.0 <= pair.delta <= 40.0
    requires GivesTones(f) && IsTone(pair.roleA.tone) && IsTone(pair.roleB.tone)
    ensures var toneA := ToneOf(f, scheme, pair, pair.roleA.name, background);
            var toneB := ToneOf(f, scheme, pair, pair.roleB.name, background);
            RolesApart(scheme.dark, pair.polarity, pair.delta, toneA, toneB) && NotAwkward(toneA, toneB)
  {
    RolesComeOutApart(f, scheme, pair, background);
  }
}
