/** Which numerals the decoder takes for numbers. */
module JsonNumbers {
  import opened JsonText
  import opened JsonScan
  import opened JsonPasses
  import opened JsonBuild
  import opened JsonMeasure

  /** A minus sign or none, digits, a point and digits or none, and a power of ten or none:
      an `e` or `E`, a sign or none, digits. */
  datatype Numeral = Numeral(minus: bool, whole: string, point: bool, fraction: string, power: string, sign: string,
                             exponent: string)

  predicate AllDigits(ds: string) { forall i | 0 <= i < |ds| :: '0' <= ds[i] <= '9' }

  predicate RightNumeral(m: Numeral) {
    && AllDigits(m.whole) && AllDigits(m.fraction) && AllDigits(m.exponent)
    && (m.whole != "" || m.minus) && (m.power == "" || m.power == "e" || m.power == "E")
    && (m.sign == "" || m.sign == "+" || m.sign == "-")
  }

  function PointText(m: Numeral): string { if m.point then "." + m.fraction else "" }

  function PowerText(m: Numeral): string { if m.power == "" then "" else m.power + m.sign + m.exponent }

  function NumeralText(m: Numeral): string {
    (if m.minus then "-" else "") + m.whole + PointText(m) + PowerText(m)
  }

  /** No leading zero, and digits on both sides of a point and behind an `e`. */
  predicate Numeric(m: Numeral) {
    && !(|m.whole| > 1 && m.whole[0] == '0')
    && (m.point ==> m.whole != "" && m.fraction != "")
    && (m.power != "" ==> m.exponent != "")
  }

  /** A number of section 6 of RFC 8259. */
  predicate Grammatical(m: Numeral) {
    && (m.whole == "0" || (m.whole != "" && m.whole[0] != '0'))
    && (m.point ==> m.fraction != "") && (m.power != "" ==> m.exponent != "")
  }

  /** The decoder's numbers are those, and a minus sign with no digits before an `e` or the end. */
  lemma NumericIs(m: Numeral)
    requires RightNumeral(m)
    ensures Numeric(m) <==>
            Grammatical(m) || (m.minus && m.whole == "" && !m.point && (m.power != "" ==> m.exponent != ""))
  {
    if |m.whole| == 1 { assert m.whole == [m.whole[0]]; }
  }

  // ---------------------------------------------------------------- refusal

  ghost predicate Refuses(data: string, s: Scan) { Inv(true, data, s) ==> Run(true, data, s) == Reject }

  lemma RefusesHere(data: string, s: Scan)
    requires Step(true, data, s) == Reject
    ensures Refuses(data, s)
  {
    hide Step, Inv;
  }

  lemma RefusesBack(data: string, s: Scan, t: Scan)
    requires Reaches(true, data, s, t) && Refuses(data, t)
    ensures Refuses(data, s)
  {
    hide Run, Inv;
  }

  lemma RefusesNext(data: string, s: Scan, t: Scan)
    requires Step(true, data, s) == Go(t) && Step(true, data, t) == Reject
    ensures Refuses(data, s)
  {
    hide *;
    RefusesHere(data, t);
    StepReaches(true, data, s, t);
    RefusesBack(data, s, t);
  }

  // ---------------------------------------------------------------- the parts of a numeral

  /** The current number has become `n`, and `num` was seen of it, `k` characters on. */
  ghost function Onward(s: Scan, n: Node, num: Num, k: nat): Scan
    requires HasTop(s)
  {
    Scan(s.c.(p := s.c.p + k), num, s.nodes[s.c.top := n], s.alloc)
  }

  ghost predicate InNumeral(s: Scan, kind: Kind) {
    InNumber(s) && TopIs(s, kind) && (kind == Integer || kind == Double)
  }

  /** Digits that do not belong to the whole part are only counted. */
  ghost function Counting(s: Scan, k: nat): Scan
    requires HasTop(s)
  {
    s.(c := s.c.(p := s.c.p + k),
       num := s.num.(digits := s.num.digits + k, sign := s.num.sign || (s.num.exp && k > 0)))
  }

  lemma PassesDigit(data: string, s: Scan)
    requires InNumeral(s, Double) && 0 <= s.c.p < |data| && Digit(data[s.c.p])
    ensures Step(true, data, s) == Go(Counting(s, 1))
  {
    hide Attach, Int64;
    assert s.nodes[s.c.top := s.nodes[s.c.top]] == s.nodes;
  }

  lemma {:induction false} PassesDigits(data: string, s: Scan, ds: string)
    requires InNumeral(s, Double) && AllDigits(ds) && Spells(data, s.c.p, ds)
    ensures Reaches(true, data, s, Counting(s, |ds|)) && InNumeral(Counting(s, |ds|), Double)
    decreases |ds|
  {
    hide Reaches, Step, Spells;
    if ds == "" {
      ReachesSelf(true, data, s);
      assert Counting(s, 0) == s;
    } else {
      assert ds == [ds[0]] + ds[1..];
      SpellsSplit(data, s.c.p, [ds[0]], ds[1..]);
      SpellsHere(data, s.c.p, [ds[0]]);
      PassesDigit(data, s);
      var t := Counting(s, 1);
      StepReaches(true, data, s, t);
      PassesDigits(data, t, ds[1..]);
      assert Counting(t, |ds| - 1) == Counting(s, |ds|);
      ReachesTrans(true, data, s, t, Counting(s, |ds|));
    }
  }

  lemma PointStep(data: string, s: Scan)
    requires InNumeral(s, Integer) && !s.num.exp && 0 <= s.c.p < |data| && data[s.c.p] == '.'
    ensures Step(true, data, s) == if s.num.digits == 0 then Reject
            else Go(Onward(s, s.nodes[s.c.top].(kind := Double), s.num.(digits := 0), 1))
  {
    hide Attach, Int64;
  }

  lemma PowerStep(data: string, s: Scan, kind: Kind)
    requires InNumeral(s, kind) && !s.num.exp && 0 <= s.c.p < |data| && (data[s.c.p] == 'e' || data[s.c.p] == 'E')
    ensures Step(true, data, s) == if kind == Double && s.num.digits == 0 then Reject
            else Go(Onward(s, s.nodes[s.c.top].(kind := Double), s.num.(digits := 0, zero := false, exp := true), 1))
  {
    hide Attach, Int64;
  }

  lemma SignStep(data: string, s: Scan)
    requires InNumeral(s, Double) && s.num.exp && !s.num.sign && 0 <= s.c.p < |data|
    requires data[s.c.p] == '+' || data[s.c.p] == '-'
    ensures Step(true, data, s) == Go(s.(c := s.c.(p := s.c.p + 1), num := s.num.(sign := true)))
  {
    hide Attach, Int64;
    assert s.nodes[s.c.top := s.nodes[s.c.top]] == s.nodes;
  }

  lemma CommaEnds(data: string, s: Scan, kind: Kind)
    requires InNumeral(s, kind) && (s.num.exp ==> kind == Double) && 0 <= s.c.p < |data| && data[s.c.p] == ','
    ensures Step(true, data, s) == if kind == Double && s.num.digits == 0 then Reject else Attach(true, s)
  {
    hide Attach, Int64;
  }

  lemma ZeroStep(data: string, s: Scan)
    requires InNumeral(s, Integer) && !s.num.exp && s.num.zero && 0 <= s.c.p < |data| && Digit(data[s.c.p])
    ensures Step(true, data, s) == Reject
  {
    hide Attach, Int64;
  }

  // ---------------------------------------------------------------- from part to part

  /** Where the first digit is to come. */
  ghost function Begun(s: Scan, minus: bool): Scan {
    Scan(s.c.(seek := false, top := |s.nodes|, p := if minus then s.c.p + 1 else s.c.p),
         Num(s.c.p, 0, false, false, false), s.nodes + [Fresh(Integer, s.c.top)], |s.nodes| + 1)
  }

  lemma Begins(data: string, s: Scan, minus: bool)
    requires AtValue(true, s) && 0 <= s.c.p < |data| && if minus then data[s.c.p] == '-' else Digit(data[s.c.p])
    ensures Reaches(true, data, s, Begun(s, minus)) && InNumeral(Begun(s, minus), Integer)
  {
    hide Reaches, Family;
    NumberBeginsAt(true, data, s);
    hide Step;
    StepReaches(true, data, s, Begun(s, minus));
  }

  /** Where the digits of the whole part, if that has no leading zero, are read. */
  ghost function Wholly(s: Scan, m: Numeral): Scan { Counted(Begun(s, m.minus), m.whole) }

  lemma WhollyIs(s: Scan, m: Numeral)
    requires AtValue(true, s)
    ensures var t := Wholly(s, m);
      && InNumeral(t, Integer) && !t.num.exp && !t.num.sign && t.num.digits == |m.whole|
      && t.c.p == s.c.p + (if m.minus then 1 else 0) + |m.whole|
      && t.nodes == s.nodes + [Fresh(Integer, s.c.top).(ival := ReadDigits(0, m.whole))]
      && t.c == s.c.(seek := false, top := |s.nodes|, p := t.c.p) && t.alloc == |t.nodes|
  {
    hide Family, Int64;
    var b := Begun(s, m.minus);
    assert b.nodes[b.c.top] == Fresh(Integer, s.c.top);
  }

  lemma ReadsWhole(data: string, s: Scan, m: Numeral)
    requires AtValue(true, s) && RightNumeral(m) && !(|m.whole| > 1 && m.whole[0] == '0')
    requires Spells(data, s.c.p, (if m.minus then "-" else "") + m.whole)
    ensures Reaches(true, data, s, Wholly(s, m))
  {
    hide Reaches, Spells, Step;
    var b := Begun(s, m.minus);
    WholeHere(data, s, m);
    Begins(data, s, m.minus);
    assert b.num == Num(s.c.p, 0, false, false, false);
    hide AtValue;
    ScanDigits(data, b, m.whole);
    ReachesTrans(true, data, s, b, Wholly(s, m));
  }

  lemma WholeHere(data: string, s: Scan, m: Numeral)
    requires RightNumeral(m) && Spells(data, s.c.p, (if m.minus then "-" else "") + m.whole)
    ensures 0 <= s.c.p < |data| && if m.minus then data[s.c.p] == '-' else Digit(data[s.c.p])
    ensures Spells(data, if m.minus then s.c.p + 1 else s.c.p, m.whole)
  {
    hide Spells;
    if m.minus {
      SpellsSplit(data, s.c.p, "-", m.whole);
      SpellsHere(data, s.c.p, "-");
    } else {
      assert "" + m.whole == m.whole;
      SpellsHere(data, s.c.p, m.whole);
    }
  }

  lemma LeadingZero(data: string, s: Scan, m: Numeral)
    requires AtValue(true, s) && RightNumeral(m) && |m.whole| > 1 && m.whole[0] == '0'
    requires Spells(data, s.c.p, (if m.minus then "-" else "") + m.whole)
    ensures Refuses(data, s)
  {
    hide Reaches, Spells, Step, Refuses;
    var b := Begun(s, m.minus);
    WholeHere(data, s, m);
    Begins(data, s, m.minus);
    assert m.whole == "0" + ([m.whole[1]] + m.whole[2..]);
    SpellsSplit(data, b.c.p, "0", [m.whole[1]] + m.whole[2..]);
    SpellsSplit(data, b.c.p + 1, [m.whole[1]], m.whole[2..]);
    SpellsHere(data, b.c.p + 1, [m.whole[1]]);
    hide AtValue;
    ScanDigits(data, b, "0");
    var t := Counted(b, "0");
    ZeroStep(data, t);
    RefusesHere(data, t);
    RefusesBack(data, b, t);
    RefusesBack(data, s, b);
  }

  /** Behind the point and its digits, and where these are missing. */
  ghost function Pointed(s: Scan, m: Numeral): Scan {
    var w := Wholly(s, m);
    if m.point && HasTop(w)
    then Counting(Onward(w, w.nodes[w.c.top].(kind := Double), w.num.(digits := 0), 1), |m.fraction|) else w
  }

  ghost function KindSoFar(m: Numeral): Kind { if m.point then Double else Integer }

  lemma PointedIs(s: Scan, m: Numeral)
    requires AtValue(true, s)
    ensures var t := Pointed(s, m);
      && InNumeral(t, KindSoFar(m)) && !t.num.exp && !t.num.sign
      && t.num.digits == (if m.point then |m.fraction| else |m.whole|)
      && t.c.p == s.c.p + (if m.minus then 1 else 0) + |m.whole| + |PointText(m)|
      && t.nodes == s.nodes + [Fresh(KindSoFar(m), s.c.top).(ival := ReadDigits(0, m.whole))]
      && t.c == s.c.(seek := false, top := |s.nodes|, p := t.c.p) && t.alloc == |t.nodes|
  {
    WhollyIs(s, m);
    hide AtValue, Wholly, ReadDigits;
  }

  lemma ReadsPoint(data: string, s: Scan, m: Numeral)
    requires AtValue(true, s) && RightNumeral(m) && Reaches(true, data, s, Wholly(s, m))
    requires Spells(data, Wholly(s, m).c.p, PointText(m))
    ensures if m.point && m.whole == "" then Refuses(data, s) else Reaches(true, data, s, Pointed(s, m))
  {
    hide *;
    PointIs(s, m);
    var w := Wholly(s, m);
    if m.point {
      PointHere(data, w.c.p, m);
      PointStep(data, w);
      if m.whole == "" {
        RefusesHere(data, w);
        RefusesBack(data, s, w);
      } else {
        var t := Onward(w, w.nodes[w.c.top].(kind := Double), w.num.(digits := 0), 1);
        StepReaches(true, data, w, t);
        ReachesTrans(true, data, s, w, t);
        PassesDigits(data, t, m.fraction);
        ReachesTrans(true, data, s, t, Pointed(s, m));
      }
    }
  }

  lemma PointIs(s: Scan, m: Numeral)
    requires AtValue(true, s) && RightNumeral(m)
    ensures var w := Wholly(s, m);
      && HasTop(w) && 0 <= w.c.top < |w.nodes| && InNumeral(w, Integer) && !w.num.exp && w.num.digits == |m.whole|
      && var t := Onward(w, w.nodes[w.c.top].(kind := Double), w.num.(digits := 0), 1);
      && InNumeral(t, Double) && t.c.p == w.c.p + 1 && HasTop(t)
      && Pointed(s, m) == if m.point then Counting(t, |m.fraction|) else w
    ensures AllDigits(m.fraction)
  {
    WhollyIs(s, m);
    hide AtValue, Wholly, ReadDigits;
  }

  lemma PointHere(data: string, p: int, m: Numeral)
    requires m.point && Spells(data, p, PointText(m))
    ensures 0 <= p < |data| && data[p] == '.' && Spells(data, p + 1, m.fraction)
  {
    SpellsSplit(data, p, ".", m.fraction);
    SpellsHere(data, p, ".");
  }

  /** Behind the `e`, and the sign if there is one. */
  ghost function Raised(w: Scan, sign: string): Scan
    requires HasTop(w)
  {
    var t := Onward(w, w.nodes[w.c.top].(kind := Double), w.num.(digits := 0, zero := false, exp := true), 1);
    t.(c := t.c.(p := t.c.p + |sign|), num := t.num.(sign := t.num.sign || sign != ""))
  }

  lemma RaisedIs(w: Scan, kind: Kind, sign: string)
    requires InNumeral(w, kind) && !w.num.sign
    ensures var t := Raised(w, sign);
      && InNumeral(t, Double) && t.num.exp && t.num.digits == 0 && (t.num.sign <==> sign != "")
      && t.c == w.c.(p := w.c.p + 1 + |sign|) && t.alloc == w.alloc
      && t.nodes == w.nodes[w.c.top := w.nodes[w.c.top].(kind := Double)]
  {
  }

  lemma ReadsRaise(data: string, w: Scan, kind: Kind, power: string, sign: string)
    requires InNumeral(w, kind) && !w.num.exp && !w.num.sign && !(kind == Double && w.num.digits == 0)
    requires (power == "e" || power == "E") && (sign == "" || sign == "+" || sign == "-")
    requires Spells(data, w.c.p, power) && Spells(data, w.c.p + 1, sign)
    ensures Reaches(true, data, w, Raised(w, sign))
  {
    hide Reaches, Spells, Step;
    SpellsHere(data, w.c.p, power);
    PowerStep(data, w, kind);
    var t := Raised(w, "");
    StepReaches(true, data, w, t);
    if sign != "" {
      SpellsHere(data, w.c.p + 1, sign);
      RaisedIs(w, kind, "");
      SignStep(data, t);
      StepReaches(true, data, t, Raised(w, sign));
      ReachesTrans(true, data, w, t, Raised(w, sign));
    }
  }

  /** Behind the whole numeral. */
  ghost function Powered(s: Scan, m: Numeral): Scan {
    var w := Pointed(s, m);
    if m.power == "" || !HasTop(w) || !HasTop(Raised(w, m.sign)) then w else Counting(Raised(w, m.sign), |m.exponent|)
  }

  ghost function KindRead(m: Numeral): Kind { if m.point || m.power != "" then Double else Integer }

  lemma PoweredIs(s: Scan, m: Numeral)
    requires AtValue(true, s) && RightNumeral(m)
    ensures var t := Powered(s, m);
      && InNumeral(t, KindRead(m)) && (t.num.exp <==> m.power != "")
      && t.num.digits == (if m.power != "" then |m.exponent| else if m.point then |m.fraction| else |m.whole|)
      && t.c.p == s.c.p + |NumeralText(m)|
      && t.nodes == s.nodes + [Fresh(KindRead(m), s.c.top).(ival := ReadDigits(0, m.whole))]
      && t.c == s.c.(seek := false, top := |s.nodes|, p := t.c.p) && t.alloc == |t.nodes|
  {
    PointedIs(s, m);
    hide AtValue, Pointed, ReadDigits, Raised;
    if m.power != "" { RaisedIs(Pointed(s, m), KindSoFar(m), m.sign); }
  }

  lemma ReadsPower(data: string, s: Scan, m: Numeral)
    requires AtValue(true, s) && RightNumeral(m) && Reaches(true, data, s, Pointed(s, m))
    requires Spells(data, Pointed(s, m).c.p, PowerText(m))
    ensures if m.power != "" && m.point && m.fraction == "" then Refuses(data, s)
            else Reaches(true, data, s, Powered(s, m))
  {
    hide *;
    PowerIs(s, m);
    var w := Pointed(s, m);
    if m.power != "" {
      PowerHere(data, w.c.p, m);
      if m.point && m.fraction == "" {
        PowerStep(data, w, Double);
        RefusesHere(data, w);
        RefusesBack(data, s, w);
      } else {
        var u := Raised(w, m.sign);
        ReadsRaise(data, w, KindSoFar(m), m.power, m.sign);
        ReachesTrans(true, data, s, w, u);
        PassesDigits(data, u, m.exponent);
        ReachesTrans(true, data, s, u, Powered(s, m));
      }
    }
  }

  lemma PowerHere(data: string, p: int, m: Numeral)
    requires RightNumeral(m) && m.power != "" && Spells(data, p, PowerText(m))
    ensures Spells(data, p, m.power) && Spells(data, p + 1, m.sign) && Spells(data, p + 1 + |m.sign|, m.exponent)
    ensures 0 <= p < |data| && (data[p] == 'e' || data[p] == 'E')
  {
    hide Spells;
    SpellsSplit(data, p, m.power + m.sign, m.exponent);
    SpellsSplit(data, p, m.power, m.sign);
    SpellsHere(data, p, m.power);
  }

  lemma PowerIs(s: Scan, m: Numeral)
    requires AtValue(true, s) && RightNumeral(m)
    ensures HasTop(Pointed(s, m)) && HasTop(Raised(Pointed(s, m), m.sign))
    ensures var w := Pointed(s, m);
      && InNumeral(w, KindSoFar(m)) && !w.num.exp && !w.num.sign
      && w.num.digits == (if m.point then |m.fraction| else |m.whole|)
    ensures var w, u := Pointed(s, m), Raised(Pointed(s, m), m.sign);
      && InNumeral(u, Double) && u.c.p == w.c.p + 1 + |m.sign|
      && Powered(s, m) == if m.power == "" then w else Counting(u, |m.exponent|)
    ensures (m.power == "" || m.power == "e" || m.power == "E") && (m.sign == "" || m.sign == "+" || m.sign == "-")
    ensures AllDigits(m.exponent) && KindSoFar(m) == if m.point then Double else Integer
  {
    PointedIs(s, m);
    RaisedIs(Pointed(s, m), KindSoFar(m), m.sign);
    hide Pointed, Raised, AtValue;
  }

  lemma NumeralParts(data: string, p: int, m: Numeral)
    requires Spells(data, p, NumeralText(m) + ",")
    ensures var sign := if m.minus then "-" else "";
      var a, b := p + |sign| + |m.whole|, p + |sign| + |m.whole| + |PointText(m)|;
      && Spells(data, p, sign + m.whole) && Spells(data, a, PointText(m)) && Spells(data, b, PowerText(m))
      && 0 <= p + |NumeralText(m)| < |data| && data[p + |NumeralText(m)|] == ','
  {
    var sign := if m.minus then "-" else "";
    assert NumeralText(m) == sign + m.whole + PointText(m) + PowerText(m);
    hide Spells, PointText, PowerText, NumeralText;
    SpellsSplit(data, p, NumeralText(m), ",");
    SpellsHere(data, p + |NumeralText(m)|, ",");
    SpellsSplit(data, p, sign + m.whole + PointText(m), PowerText(m));
    SpellsSplit(data, p, sign + m.whole, PointText(m));
  }

  /** What the first pass makes of a numeral with a comma behind it. */
  lemma NumeralIs(data: string, s: Scan, m: Numeral)
    requires AtValue(true, s) && CanTake(s) && RightNumeral(m) && Spells(data, s.c.p, NumeralText(m) + ",")
    ensures if !Numeric(m) then Refuses(data, s)
            else Attach(true, Powered(s, m)).Go? && Reaches(true, data, s, Attach(true, Powered(s, m)).s)
  {
    hide Reaches, Spells, Step, Refuses, Attach, Pointed, Wholly, Powered, ReadDigits, CanTake, NumeralText;
    NumeralParts(data, s.c.p, m);
    if |m.whole| > 1 && m.whole[0] == '0' {
      LeadingZero(data, s, m);
    } else {
      WhollyIs(s, m);
      PointedIs(s, m);
      PoweredIs(s, m);
      ReadsWhole(data, s, m);
      ReadsPoint(data, s, m);
      if !(m.point && m.whole == "") {
        ReadsPower(data, s, m);
        if !(m.power != "" && m.point && m.fraction == "") {
          EndsNumeral(data, s, m);
        }
      }
    }
  }

  lemma EndsNumeral(data: string, s: Scan, m: Numeral)
    requires AtValue(true, s) && CanTake(s) && RightNumeral(m) && Reaches(true, data, s, Powered(s, m))
    requires var p := s.c.p + |NumeralText(m)|; 0 <= p < |data| && data[p] == ','
    requires !(|m.whole| > 1 && m.whole[0] == '0') && !(m.point && m.whole == "")
    requires !(m.power != "" && m.point && m.fraction == "")
    ensures if !Numeric(m) then Refuses(data, s)
            else Attach(true, Powered(s, m)).Go? && Reaches(true, data, s, Attach(true, Powered(s, m)).s)
  {
    hide Reaches, Step, Refuses, Attach, Powered, ReadDigits, NumeralText, Family;
    PoweredIs(s, m);
    var t := Powered(s, m);
    CommaEnds(data, t, KindRead(m));
    if Numeric(m) {
      AttachFirst(s, t, 1);
      StepReaches(true, data, t, Attach(true, t).s);
      ReachesTrans(true, data, s, t, Attach(true, t).s);
    } else {
      RefusesHere(data, t);
      RefusesBack(data, s, t);
    }
  }

  // ---------------------------------------------------------------- what a number is read as

  /** The number that digits spell. */
  function DigitsSpell(ds: string): nat
    requires AllDigits(ds)
  {
    if ds == "" then 0 else 10 * DigitsSpell(ds[..|ds| - 1]) + (ds[|ds| - 1] as int - '0' as int)
  }

  lemma WrapsOnce(y: int, d: int)
    ensures Int64(Int64(y) * 10 + d) == Int64(y * 10 + d)
  {
    var q := (y + 0x8000_0000_0000_0000) / 0x1_0000_0000_0000_0000;
    assert Int64(y) == y - q * 0x1_0000_0000_0000_0000;
    var z := y * 10 + d + 0x8000_0000_0000_0000;
    assert Int64(y) * 10 + d + 0x8000_0000_0000_0000 == z - (10 * q) * 0x1_0000_0000_0000_0000;
    assert (z - (10 * q) * 0x1_0000_0000_0000_0000) % 0x1_0000_0000_0000_0000 == z % 0x1_0000_0000_0000_0000;
  }

  lemma {:induction false} DigitsWrap(ds: string)
    requires AllDigits(ds)
    ensures ReadDigits(0, ds) == Int64(DigitsSpell(ds))
    decreases |ds|
  {
    if ds != "" {
      var front, last := ds[..|ds| - 1], ds[|ds| - 1];
      assert ds == front + [last];
      DigitsWrap(front);
      ReadAppend(0, front, last);
      WrapsOnce(DigitsSpell(front), last as int - '0' as int);
    }
  }

  /** The container takes one node for the numeral: an integer without point and power, with
      the number its digits spell, cut to 64 bits, whatever its sign; else a double. */
  lemma NumeralIsTaken(data: string, s: Scan, m: Numeral) returns (t: Scan)
    requires AtValue(true, s) && CanTake(s) && RightNumeral(m) && Numeric(m)
    requires Spells(data, s.c.p, NumeralText(m) + ",")
    ensures Reaches(true, data, s, t) && Added(s, t, 1) && Took(s, t) && t.c.p == s.c.p + |NumeralText(m)|
    ensures t.nodes[|s.nodes|] == Fresh(KindRead(m), s.c.top).(ival := Int64(DigitsSpell(m.whole)))
  {
    hide Reaches, Spells, Attach, Powered, ReadDigits, NumeralText, Family, Numeric;
    NumeralIs(data, s, m);
    PoweredIs(s, m);
    DigitsWrap(m.whole);
    var w := Powered(s, m);
    AttachFirst(s, w, 1);
    NumeralFamily(s, w.nodes[|s.nodes|]);
    AttachKeeps(true, w);
    t := Attach(true, w).s;
  }

  lemma NumeralFamily(s: Scan, n: Node)
    requires AtValue(true, s) && n.parent == s.c.top
    ensures Family(s.nodes + [n])
  {
  }
}
