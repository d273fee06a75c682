/** The sync's value cleaners: `toNumber` and the date and time prefix extractors. */
module Convert {
  import opened Wrappers

  /** `parseFloat` followed by `Number.isFinite`: `None` stands for NaN or an infinity. */
  type NumberParser = string -> Option<real>

  /** `toNumber` with fallback 0: null or undefined, and anything that does not parse to a
      finite number, become 0. */
  function ToNumber(v: Option<string>, parse: NumberParser): (n: real)
    ensures v.None? ==> n == 0.0
    ensures v.Some? && parse(v.value).None? ==> n == 0.0
    ensures v.Some? && parse(v.value).Some? ==> n == parse(v.value).value
  {
    match v
    case None => 0.0
    case Some(s) => parse(s).GetOr(0.0)
  }

  /** One position of a regular expression anchored at the start: `\d` (ASCII digits only, as
      JavaScript's `\d` without the `u` flag) or a literal character. */
  datatype CharClass = Digit | Exactly(c: char)

  predicate IsDigit(c: char)
  {
    '0' <= c <= '9'
  }

  predicate Fits(c: char, cls: CharClass)
  {
    match cls
    case Digit => IsDigit(c)
    case Exactly(x) => c == x
  }

  /** `^\d{4}-\d{2}-\d{2}` */
  const DateShape: seq<CharClass> :=
    [Digit, Digit, Digit, Digit, Exactly('-'), Digit, Digit, Exactly('-'), Digit, Digit]

  /** `^\d{2}:\d{2}:\d{2}` */
  const TimeShape: seq<CharClass> :=
    [Digit, Digit, Exactly(':'), Digit, Digit, Exactly(':'), Digit, Digit]

  /** `if (!v) return null; const match = v.match(re); return match ? match[0] : null;` for an
      anchored regular expression without repetition: the matched text is the prefix of the
      shape's length. */
  function MatchPrefix(v: Option<string>, shape: seq<CharClass>): Option<string>
  {
    match v
    case None => None
    case Some(s) =>
      if s == "" then None
      else if |s| >= |shape| && forall i :: 0 <= i < |shape| ==> Fits(s[i], shape[i]) then Some(s[..|shape|])
      else None
  }

  /** Ten characters of the form DDDD-DD-DD, D an ASCII digit. */
  predicate IsDateText(s: string)
  {
    && |s| == 10
    && IsDigit(s[0]) && IsDigit(s[1]) && IsDigit(s[2]) && IsDigit(s[3]) && s[4] == '-'
    && IsDigit(s[5]) && IsDigit(s[6]) && s[7] == '-' && IsDigit(s[8]) && IsDigit(s[9])
  }

  /** Eight characters of the form DD:DD:DD, D an ASCII digit. */
  predicate IsTimeText(s: string)
  {
    && |s| == 8
    && IsDigit(s[0]) && IsDigit(s[1]) && s[2] == ':' && IsDigit(s[3]) && IsDigit(s[4])
    && s[5] == ':' && IsDigit(s[6]) && IsDigit(s[7])
  }

  lemma DateShapeMeans(s: string)
    requires |s| >= 10
    ensures IsDateText(s[..10]) <==> forall i :: 0 <= i < |DateShape| ==> Fits(s[i], DateShape[i])
  {
    var p := s[..10];
    assert forall i :: 0 <= i < 10 ==> p[i] == s[i];
  }

  lemma TimeShapeMeans(s: string)
    requires |s| >= 8
    ensures IsTimeText(s[..8]) <==> forall i :: 0 <= i < |TimeShape| ==> Fits(s[i], TimeShape[i])
  {
    var p := s[..8];
    assert forall i :: 0 <= i < 8 ==> p[i] == s[i];
  }

  function ToDateOnly(v: Option<string>): (r: Option<string>)
    ensures r.Some? <==> v.Some? && |v.value| >= 10 && IsDateText(v.value[..10])
    ensures r.Some? ==> r.value == v.value[..10]
  {
    if v.Some? && |v.value| >= 10 then
      DateShapeMeans(v.value);
      MatchPrefix(v, DateShape)
    else
      MatchPrefix(v, DateShape)
  }

  function ToTimeOnly(v: Option<string>): (r: Option<string>)
    ensures r.Some? <==> v.Some? && |v.value| >= 8 && IsTimeText(v.value[..8])
    ensures r.Some? ==> r.value == v.value[..8]
  {
    if v.Some? && |v.value| >= 8 then
      TimeShapeMeans(v.value);
      MatchPrefix(v, TimeShape)
    else
      MatchPrefix(v, TimeShape)
  }

  /** Cleaning an already cleaned date gives it back unchanged. */
  lemma ToDateOnlyIdempotent(v: Option<string>)
    ensures ToDateOnly(ToDateOnly(v)) == ToDateOnly(v)
  {
    var r := ToDateOnly(v);
    if r.Some? {
      assert r.value[..10] == r.value;
    }
  }

  /** Cleaning an already cleaned time gives it back unchanged. */
  lemma ToTimeOnlyIdempotent(v: Option<string>)
    ensures ToTimeOnly(ToTimeOnly(v)) == ToTimeOnly(v)
  {
    var r := ToTimeOnly(v);
    if r.Some? {
      assert r.value[..8] == r.value;
    }
  }
}
