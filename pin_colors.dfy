/**
  The pin types of the sidebar and the reverse lookup from a pin's fill
  colour back to its type.
 */
module PinColors {
  import opened Wrappers

  /** The pin types, in declaration order, each with its fill colour as hex code. */
  const PinTypes: seq<(string, string)> := [
    ("RTW (Rot)", "#ff0000"),
    ("KTW (Orange)", "#ff8c00"),
    ("EVT Fußtrupp (Blau)", "#0066ff"),
    ("Sonstiges (Schwarz)", "#000000")
  ]

  /** The type reported for a colour that no pin type's hex code starts. */
  const Unknown: string := "Unbekannt"

  /** Lower-casing of one character (ASCII letters only). */
  function LowerChar(c: char): (d: char)
    ensures !('A' <= d <= 'Z')
    ensures !('A' <= c <= 'Z') ==> d == c
    ensures d as int - c as int == 0 || d as int - c as int == 32
  {
    if 'A' <= c <= 'Z' then (c as int + 32) as char else c
  }

  /**
    Lower-casing of a string: no capital letter is left, every other
    character is kept, and each character moves by 0 or by the distance
    from `A` to `a`.
   */
  function Lower(s: string): (r: string)
    ensures |r| == |s|
    ensures forall i :: 0 <= i < |r| ==> !('A' <= r[i] <= 'Z')
    ensures forall i :: 0 <= i < |s| && !('A' <= s[i] <= 'Z') ==> r[i] == s[i]
    ensures forall i :: 0 <= i < |s| ==> r[i] as int - s[i] as int == 0 || r[i] as int - s[i] as int == 32
  {
    seq(|s|, i requires 0 <= i < |s| => LowerChar(s[i]))
  }

  /** `s` starts with `prefix` once both are lower-cased. */
  predicate StartsWithIgnoringCase(s: string, prefix: string)
  {
    |prefix| <= |s| && Lower(s)[..|prefix|] == Lower(prefix)
  }

  /**
    Position of the first entry of `table`, in order, whose hex code starts
    `color` ignoring case; `None` when no entry does.
   */
  function FirstMatch(table: seq<(string, string)>, color: string): (r: Option<nat>)
    ensures r.Some? ==> r.value < |table| && StartsWithIgnoringCase(color, table[r.value].1)
    ensures r.Some? ==> forall j :: 0 <= j < r.value ==> !StartsWithIgnoringCase(color, table[j].1)
    ensures r.None? <==> forall j :: 0 <= j < |table| ==> !StartsWithIgnoringCase(color, table[j].1)
  {
    if table == [] then None
    else if StartsWithIgnoringCase(color, table[0].1) then Some(0)
    else
      match FirstMatch(table[1..], color)
      case None => None
      case Some(i) => Some(i + 1)
  }

  /**
    The pin type of a fill colour: the first declared type whose hex code
    starts the colour ignoring case, or `Unknown`.
   */
  function ColorToType(color: string): (typ: string)
    ensures typ == Unknown <==> forall j :: 0 <= j < |PinTypes| ==> !StartsWithIgnoringCase(color, PinTypes[j].1)
    ensures typ != Unknown ==>
      exists i :: 0 <= i < |PinTypes| && typ == PinTypes[i].0 &&
        StartsWithIgnoringCase(color, PinTypes[i].1) &&
        (forall j :: 0 <= j < i ==> !StartsWithIgnoringCase(color, PinTypes[j].1))
  {
    match FirstMatch(PinTypes, color)
    case None => Unknown
    case Some(i) => PinTypes[i].0
  }

  // ---------------------------------------------------------------------
  // Properties of the lookup
  // ---------------------------------------------------------------------

  /**
    Every colour that starts with a declared type's hex code, in any case and
    with anything appended, is reported as that type: no declared hex code is
    a prefix of another, so declaration order never hides a type.
   */
  lemma ColorOfTypeIsThatType(color: string, i: nat)
    requires i < |PinTypes|
    requires StartsWithIgnoringCase(color, PinTypes[i].1)
    ensures ColorToType(color) == PinTypes[i].0
  {
    forall j | 0 <= j < i
      ensures !StartsWithIgnoringCase(color, PinTypes[j].1)
    {
      DeclaredHexCodesDiffer(j, i);
    }
  }

  /** The lower-cased hex codes of the declared types are pairwise distinct. */
  lemma DeclaredHexCodesDiffer(k: nat, i: nat)
    requires k < i < |PinTypes|
    ensures |PinTypes[k].1| == |PinTypes[i].1|
    ensures Lower(PinTypes[k].1) != Lower(PinTypes[i].1)
  {
    var a, b := Lower(PinTypes[k].1), Lower(PinTypes[i].1);
    // "#ff0000"/"#ff8c00" and "#0066ff"/"#000000" first differ at index 3,
    // every other pair already at index 1 ('f' against '0').
    var d := if i == 1 || k == 2 then 3 else 1;
    assert a[d] != b[d];
  }

  /** Each declared fill colour maps back to its own type. */
  lemma DeclaredColorRoundTrip(i: nat)
    requires i < |PinTypes|
    ensures ColorToType(PinTypes[i].1) == PinTypes[i].0
  {
    assert Lower(PinTypes[i].1)[..|PinTypes[i].1|] == Lower(PinTypes[i].1);
    ColorOfTypeIsThatType(PinTypes[i].1, i);
  }

  /** Lower-casing twice is lower-casing once. */
  lemma LowerIdempotent(s: string)
    ensures Lower(Lower(s)) == Lower(s)
  {
  }

  /** The lookup ignores case: a colour and its lower-cased form have the same type. */
  lemma ColorToTypeIgnoresCase(color: string)
    ensures ColorToType(Lower(color)) == ColorToType(color)
  {
    LowerIdempotent(color);
    FirstMatchAgrees(PinTypes, Lower(color), color);
  }

  /** Two colours that every entry of a table starts alike have the same first match. */
  lemma {:induction false} FirstMatchAgrees(table: seq<(string, string)>, c1: string, c2: string)
    requires forall j :: 0 <= j < |table| ==> StartsWithIgnoringCase(c1, table[j].1) == StartsWithIgnoringCase(c2, table[j].1)
    ensures FirstMatch(table, c1) == FirstMatch(table, c2)
  {
    if table != [] {
      FirstMatchAgrees(table[1..], c1, c2);
    }
  }

  /**
    A colour that does not start with `#`, the empty colour included, is of
    unknown type: every declared hex code starts with `#`.
   */
  lemma ColorWithoutHashIsUnknown(color: string)
    requires |color| == 0 || color[0] != '#'
    ensures ColorToType(color) == Unknown
  {
  }
}
