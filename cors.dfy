/**
  The allowed CORS origins of the API: the `CORS_ORIGINS` setting split on
  commas, each piece stripped of surrounding whitespace, blank pieces
  dropped, and every origin allowed when nothing is left.

  The environment is a parameter: `None` when `CORS_ORIGINS` is not set.
 */
module Cors {
  import opened Wrappers
  import opened Text
  import opened Sequences

  const DefaultOrigins: string := "http://localhost:5173,http://localhost:3000"

  /** `os.getenv("CORS_ORIGINS", default)`: a variable set to the empty string is used as is. */
  function OriginsSetting(env: Option<string>): (s: string)
    ensures env.Some? ==> s == env.value
  {
    if env.Some? then env.value else DefaultOrigins
  }

  /** An origin as the parser leaves it: not blank, no surrounding whitespace, no comma. */
  predicate WellFormedOrigin(o: string) {
    o != [] && Unpadded(o) && ',' !in o
  }

  /** Every piece strips to the empty string. */
  predicate AllBlank(pieces: seq<string>) {
    forall m :: 0 <= m < |pieces| ==> Strip(pieces[m]) == []
  }

  /** `[p.strip() for p in pieces if p.strip()]`. */
  function StripNonBlank(pieces: seq<string>): (origins: seq<string>)
    ensures |origins| <= |pieces|
    ensures forall o :: o in origins ==> o != [] && Unpadded(o)
    ensures origins == [] <==> AllBlank(pieces)
  {
    if pieces == [] then []
    else
      var rest := StripNonBlank(pieces[1..]);
      assert forall m :: 1 <= m < |pieces| ==> pieces[m] == pieces[1..][m - 1];
      var head := Strip(pieces[0]);
      if head != [] then [head] + rest else rest
  }

  /** Stripping adds no character, so pieces without a comma give origins without one. */
  lemma {:induction false} StripNonBlankNoComma(pieces: seq<string>)
    requires forall p :: p in pieces ==> ',' !in p
    ensures forall o :: o in StripNonBlank(pieces) ==> ',' !in o
  {
    if pieces != [] {
      StripNonBlankNoComma(pieces[1..]);
      StripSubstring(pieces[0]);
    }
  }

  /** Every piece stripped, in order. */
  function StripEach(pieces: seq<string>): (r: seq<string>)
    ensures |r| == |pieces|
    ensures forall m :: 0 <= m < |pieces| ==> r[m] == Strip(pieces[m])
  {
    seq(|pieces|, m requires 0 <= m < |pieces| => Strip(pieces[m]))
  }

  /** The comprehension's condition `if origin.strip()`: a non-empty string is truthy. */
  function NonBlank(): string -> bool {
    o => o != []
  }

  /** `StripNonBlank` is the non-empty stripped pieces, in the pieces' order. */
  lemma {:induction false} StripNonBlankIsFilter(pieces: seq<string>)
    ensures StripNonBlank(pieces) == Filter(StripEach(pieces), NonBlank())
  {
    if pieces != [] {
      StripNonBlankIsFilter(pieces[1..]);
      assert StripEach(pieces)[1..] == StripEach(pieces[1..]);
    }
  }

  /**
    The origin list built from the setting `s`: the stripped comma-separated
    pieces that are not blank, in the order of the setting.
   */
  function ParseOrigins(s: string): (origins: seq<string>)
    ensures origins == Filter(StripEach(Split(s, ',')), NonBlank())
    ensures forall o :: o in origins <==> o != [] && exists m :: 0 <= m < |Split(s, ',')| && Strip(Split(s, ',')[m]) == o
    ensures forall o :: o in origins ==> WellFormedOrigin(o)
  {
    var pieces := Split(s, ',');
    StripNonBlankNoComma(pieces);
    StripNonBlankIsFilter(pieces);
    StripEachMembers(pieces);
    StripNonBlank(pieces)
  }

  lemma StripEachMembers(pieces: seq<string>)
    ensures forall o :: o in Filter(StripEach(pieces), NonBlank()) <==>
      o != [] && exists m :: 0 <= m < |pieces| && Strip(pieces[m]) == o
  {
    var stripped := StripEach(pieces);
    FilterMembers(stripped, NonBlank());
    forall o | o in stripped ensures exists m :: 0 <= m < |pieces| && Strip(pieces[m]) == o {
      var m :| 0 <= m < |stripped| && stripped[m] == o;
    }
    forall o | o != [] && exists m :: 0 <= m < |pieces| && Strip(pieces[m]) == o ensures o in stripped {
      var m :| 0 <= m < |pieces| && Strip(pieces[m]) == o;
      assert stripped[m] == o;
    }
  }

  /** A stripped string is a substring, so it holds no character the original lacks. */
  lemma StripSubstring(s: string)
    ensures forall c :: c in Strip(s) ==> c in s
  {
    var i, j :| 0 <= i <= j <= |s| && Strip(s) == s[i..j] && AllSpace(s[..i]) && AllSpace(s[j..]);
    assert forall c :: c in s[i..j] ==> c in s;
  }

  /** `allow_origins`: the parsed list, or `["*"]` when it is empty. */
  function AllowOrigins(env: Option<string>): (allowed: seq<string>)
    ensures |allowed| >= 1
  {
    var origins := ParseOrigins(OriginsSetting(env));
    if origins == [] then ["*"] else origins
  }

  /**
    The wildcard stands in exactly when every comma-separated piece of the
    setting is blank; otherwise the parsed origins are allowed as they are.
   */
  lemma AllowOriginsCases(env: Option<string>)
    ensures AllBlank(Split(OriginsSetting(env), ',')) ==> AllowOrigins(env) == ["*"]
    ensures !AllBlank(Split(OriginsSetting(env), ',')) ==>
      AllowOrigins(env) == ParseOrigins(OriginsSetting(env)) != []
  {
    var setting := OriginsSetting(env);
    assert ParseOrigins(setting) == StripNonBlank(Split(setting, ','));
  }

  /** Well-formed origins joined with commas parse back to the same list. */
  lemma {:induction false} ParseJoinedOrigins(origins: seq<string>)
    requires origins != []
    requires forall o :: o in origins ==> WellFormedOrigin(o)
    ensures ParseOrigins(Join(origins, ',')) == origins
  {
    forall k | 0 <= k < |origins| ensures ',' !in origins[k] {
      assert WellFormedOrigin(origins[k]);
    }
    SplitJoin(origins, ',');
    StripNonBlankIdentity(origins);
  }

  lemma {:induction false} StripNonBlankIdentity(pieces: seq<string>)
    requires forall p :: p in pieces ==> p != [] && Unpadded(p)
    ensures StripNonBlank(pieces) == pieces
  {
    if pieces != [] {
      StripUnpadded(pieces[0]);
      assert forall p :: p in pieces[1..] ==> p in pieces;
      StripNonBlankIdentity(pieces[1..]);
    }
  }

  /** Each origin with one space on either side, as in `"http://a.test , http://b.test"`. */
  function PadEach(origins: seq<string>): (pieces: seq<string>)
    ensures |pieces| == |origins|
    ensures forall k :: 0 <= k < |origins| ==> pieces[k] == [' '] + origins[k] + [' ']
  {
    seq(|origins|, k requires 0 <= k < |origins| => [' '] + origins[k] + [' '])
  }

  /** Padding around the origins of a comma-separated setting is stripped off. */
  lemma {:induction false} ParsePaddedOrigins(origins: seq<string>)
    requires origins != []
    requires forall o :: o in origins ==> WellFormedOrigin(o)
    ensures ParseOrigins(Join(PadEach(origins), ',')) == origins
  {
    var pieces := PadEach(origins);
    forall k | 0 <= k < |pieces| ensures ',' !in pieces[k] {
      assert WellFormedOrigin(origins[k]);
    }
    SplitJoin(pieces, ',');
    StripNonBlankPadded(origins);
  }

  lemma {:induction false} StripNonBlankPadded(origins: seq<string>)
    requires forall o :: o in origins ==> WellFormedOrigin(o)
    ensures StripNonBlank(PadEach(origins)) == origins
  {
    if origins != [] {
      assert WellFormedOrigin(origins[0]);
      StripSingleSpaces(origins[0]);
      assert PadEach(origins)[1..] == PadEach(origins[1..]);
      assert forall o :: o in origins[1..] ==> o in origins;
      StripNonBlankPadded(origins[1..]);
    }
  }

  /** A blank piece of the setting, such as the middle one of `"a, ,b"`, contributes no origin. */
  lemma BlankPieceDropped(pieces: seq<string>, m: nat)
    requires m < |pieces| && Strip(pieces[m]) == []
    ensures StripNonBlank(pieces) == StripNonBlank(pieces[..m]) + StripNonBlank(pieces[m + 1..])
  {
    var tail := pieces[m..];
    assert pieces == pieces[..m] + tail;
    StripNonBlankAppend(pieces[..m], tail);
    assert tail[0] == pieces[m] && tail[1..] == pieces[m + 1..];
    assert StripNonBlank(tail) == StripNonBlank(tail[1..]);
  }

  lemma {:induction false} StripNonBlankAppend(xs: seq<string>, ys: seq<string>)
    ensures StripNonBlank(xs + ys) == StripNonBlank(xs) + StripNonBlank(ys)
  {
    if xs != [] {
      assert (xs + ys)[1..] == xs[1..] + ys;
      StripNonBlankAppend(xs[1..], ys);
    } else {
      assert xs + ys == ys;
    }
  }

  /** One space on each side of a non-blank string without surrounding whitespace is stripped off. */
  lemma StripSingleSpaces(x: string)
    requires x != [] && !IsSpace(x[0]) && !IsSpace(x[|x| - 1])
    ensures Strip([' '] + x + [' ']) == x
  {
    {
      var s := [' '] + x + [' '];
      assert s[1] == x[0] && s[|s| - 2] == x[|x| - 1];
      assert SkipSpaces(s, 1) == 1;
      assert SkipSpaces(s, 0) == 1;
      assert SkipSpacesBack(s, 1, |s| - 1) == |s| - 1;
      assert SkipSpacesBack(s, 1, |s|) == |s| - 1;
      assert s[1..|s| - 1] == x;
    }
  }

  /** Without `CORS_ORIGINS`, the two local development servers are allowed. */
  lemma DefaultAllowsLocalServers()
    ensures AllowOrigins(None) == ["http://localhost:5173", "http://localhost:3000"]
  {
    var origins := ["http://localhost:5173", "http://localhost:3000"];
    assert Join(origins, ',') == DefaultOrigins;
    assert WellFormedOrigin(origins[0]) && WellFormedOrigin(origins[1]);
    ParseJoinedOrigins(origins);
  }
}
