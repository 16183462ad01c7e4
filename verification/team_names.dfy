/** The string normalisers of nfl_confidence/odds.py: `convert_team_name`, `add_timezone`,
    and the team-name validator that checks a converted name against the team registry. */
module TeamNames {
  import opened Wrappers

  /** Number of occurrences of `c` in `s`. */
  function Occurrences(s: string, c: char): (n: nat)
    ensures n <= |s|
    ensures n == 0 <==> c !in s
  {
    if |s| == 0 then 0 else (if s[0] == c then 1 else 0) + Occurrences(s[1..], c)
  }

  /** Python's `str.replace` with a one-character pattern: every occurrence of `c`
      becomes `t`, every other character is kept, and nothing else is touched. */
  function ReplaceChar(s: string, c: char, t: string): (r: string)
    ensures c !in t ==> c !in r
    ensures c !in s ==> r == s
  {
    if |s| == 0 then ""
    else (if s[0] == c then t else [s[0]]) + ReplaceChar(s[1..], c, t)
  }

  /** On one character: the pattern becomes `t`, any other character is kept. */
  lemma ReplaceCharSingle(x: char, c: char, t: string)
    ensures ReplaceChar([x], c, t) == if x == c then t else [x]
  {
    assert [x][1..] == "";
  }

  /** Replacement distributes over concatenation. With `ReplaceCharSingle` this pins
      the whole result: each occurrence of the pattern becomes `t` and every other
      character is kept, in order. */
  lemma {:induction false} ReplaceCharConcat(a: string, b: string, c: char, t: string)
    ensures ReplaceChar(a + b, c, t) == ReplaceChar(a, c, t) + ReplaceChar(b, c, t)
  {
    if |a| == 0 {
      assert a + b == b;
    } else {
      assert (a + b)[0] == a[0];
      assert (a + b)[1..] == a[1..] + b;
      ReplaceCharConcat(a[1..], b, c, t);
    }
  }

  /** Each occurrence replaced by `t` changes the length by `|t| - 1`. */
  lemma {:induction false} ReplaceCharLength(s: string, c: char, t: string)
    ensures |ReplaceChar(s, c, t)| == |s| + Occurrences(s, c) * (|t| - 1)
  {
    if |s| > 0 {
      var n := Occurrences(s[1..], c);
      ReplaceCharLength(s[1..], c, t);
      if s[0] == c {
        AddOneFactor(n, |t| - 1);
      }
    }
  }

  lemma AddOneFactor(n: int, m: int)
    ensures (1 + n) * m == m + n * m
  {
  }

  /** Replacing a character by a single character works position by position. */
  lemma {:induction false} ReplaceCharPointwise(s: string, c: char, d: char)
    ensures |ReplaceChar(s, c, [d])| == |s|
    ensures forall i :: 0 <= i < |s| ==>
      ReplaceChar(s, c, [d])[i] == (if s[i] == c then d else s[i])
  {
    if |s| > 0 {
      ReplaceCharPointwise(s[1..], c, d);
      var r := ReplaceChar(s, c, [d]);
      assert r == [if s[0] == c then d else s[0]] + ReplaceChar(s[1..], c, [d]);
      forall i | 0 < i < |s|
        ensures r[i] == (if s[i] == c then d else s[i])
      {
        assert r[i] == ReplaceChar(s[1..], c, [d])[i - 1];
      }
    }
  }

  /** ASCII lower-casing of one character. */
  function Lower(c: char): char
  {
    if 'A' <= c <= 'Z' then (c as int - 'A' as int + 'a' as int) as char else c
  }

  /** `str.lower` restricted to ASCII letters. */
  function LowerString(s: string): (r: string)
    ensures |r| == |s|
    ensures forall i :: 0 <= i < |s| ==> r[i] == Lower(s[i])
  {
    seq(|s|, i requires 0 <= i < |s| => Lower(s[i]))
  }

  /** What `convert_team_name` does to one character: a space becomes a hyphen,
      an upper-case letter its lower-case form, anything else stays. */
  function CanonicalChar(c: char): char
  {
    if c == ' ' then '-' else Lower(c)
  }

  /** A canonical team name has no spaces and no upper-case letters. */
  predicate IsCanonical(s: string)
  {
    forall i :: 0 <= i < |s| ==> s[i] != ' ' && !('A' <= s[i] <= 'Z')
  }

  /** `convert_team_name`: lower-case the name and turn every space into a hyphen.
      The result is canonical, as long as the input, and changes exactly the spaces
      and the upper-case letters. */
  function ConvertTeamName(name: string): (r: string)
    ensures |r| == |name|
    ensures IsCanonical(r)
    ensures forall i :: 0 <= i < |name| ==> r[i] == CanonicalChar(name[i])
  {
    ReplaceCharPointwise(LowerString(name), ' ', '-');
    ReplaceChar(LowerString(name), ' ', "-")
  }

  /** The names `convert_team_name` leaves unchanged are exactly the canonical ones. */
  lemma ConvertTeamNameFixedPoints(name: string)
    ensures ConvertTeamName(name) == name <==> IsCanonical(name)
  {
    var r := ConvertTeamName(name);
    if IsCanonical(name) {
      forall i | 0 <= i < |name| ensures r[i] == name[i] {
        assert name[i] != ' ' && !('A' <= name[i] <= 'Z');
      }
    }
  }

  /** Converting an already converted name changes nothing. */
  lemma ConvertTeamNameIdempotent(name: string)
    ensures ConvertTeamName(ConvertTeamName(name)) == ConvertTeamName(name)
  {
    ConvertTeamNameFixedPoints(ConvertTeamName(name));
  }

  /** Conversion works character by character, so it distributes over concatenation. */
  lemma ConvertTeamNameConcat(a: string, b: string)
    ensures ConvertTeamName(a + b) == ConvertTeamName(a) + ConvertTeamName(b)
  {
    var r, ra, rb := ConvertTeamName(a + b), ConvertTeamName(a), ConvertTeamName(b);
    var ab := a + b;
    assert |r| == |ra + rb|;
    forall i | 0 <= i < |r| ensures r[i] == (ra + rb)[i] {
      if i < |a| {
        calc {
          r[i];
          CanonicalChar(ab[i]);
          { assert ab[i] == a[i]; }
          CanonicalChar(a[i]);
          ra[i];
        }
      } else {
        calc {
          r[i];
          CanonicalChar(ab[i]);
          { assert ab[i] == b[i - |a|]; }
          CanonicalChar(b[i - |a|]);
          rb[i - |a|];
        }
      }
    }
  }

  /** The name the odds feed uses for New Orleans becomes the registry key. */
  lemma ConvertTeamNameExample(raw: string)
    requires raw == "New Orleans Saints"
    ensures ConvertTeamName(raw) == "new-orleans-saints"
  {
    SplitLiteral(raw);
    ConvertWords(raw, "New ", "Orleans", " Saints");
    JoinLiteral(ConvertTeamName(raw));
  }

  lemma SplitLiteral(x: string)
    requires x == "New Orleans Saints"
    ensures x == "New " + ("Orleans" + " Saints")
  {
  }

  lemma JoinLiteral(x: string)
    requires x == "new-" + ("orleans" + "-saints")
    ensures x == "new-orleans-saints"
  {
  }

  lemma ConvertWords(raw: string, a: string, b: string, c: string)
    requires a == "New " && b == "Orleans" && c == " Saints"
    requires raw == a + (b + c)
    ensures ConvertTeamName(raw) == "new-" + ("orleans" + "-saints")
  {
    ConvertTeamNameConcat(b, c);
    ConvertTeamNameConcat(a, b + c);
    ConvertWordNew(a);
    ConvertWordOrleans(b);
    ConvertWordSaints(c);
  }

  lemma ConvertWordNew(w: string)
    requires w == "New "
    ensures ConvertTeamName(w) == "new-"
  {
    var r := ConvertTeamName(w);
    assert r[0] == 'n' && r[1] == 'e' && r[2] == 'w' && r[3] == '-';
  }

  lemma ConvertWordOrleans(w: string)
    requires w == "Orleans"
    ensures ConvertTeamName(w) == "orleans"
  {
    var r := ConvertTeamName(w);
    assert r[0] == 'o' && r[1] == 'r' && r[2] == 'l' && r[3] == 'e' && r[4] == 'a' && r[5] == 'n' && r[6] == 's';
  }

  lemma ConvertWordSaints(w: string)
    requires w == " Saints"
    ensures ConvertTeamName(w) == "-saints"
  {
    var r := ConvertTeamName(w);
    assert r[0] == '-' && r[1] == 's' && r[2] == 'a' && r[3] == 'i' && r[4] == 'n' && r[5] == 't' && r[6] == 's';
  }

  /** `add_timezone`: every `Z` of an ISO-8601 timestamp becomes the explicit UTC offset. */
  function AddTimezone(date: string): (r: string)
    ensures 'Z' !in r
    ensures |r| == |date| + 5 * Occurrences(date, 'Z')
    ensures 'Z' !in date ==> r == date
  {
    ReplaceCharLength(date, 'Z', "+00:00");
    ReplaceChar(date, 'Z', "+00:00")
  }

  /** A lone `Z` becomes the offset `+00:00`; any other character is kept. */
  lemma AddTimezoneSingle(x: char)
    ensures AddTimezone([x]) == if x == 'Z' then "+00:00" else [x]
  {
    ReplaceCharSingle(x, 'Z', "+00:00");
  }

  /** `add_timezone` works piece by piece: the parts of a timestamp are rewritten
      independently and joined in order. */
  lemma AddTimezoneConcat(a: string, b: string)
    ensures AddTimezone(a + b) == AddTimezone(a) + AddTimezone(b)
  {
    ReplaceCharConcat(a, b, 'Z', "+00:00");
  }

  /** `add_timezone` changes a string exactly when it contains a `Z`. */
  lemma AddTimezoneFixedPoints(date: string)
    ensures AddTimezone(date) == date <==> 'Z' !in date
  {
  }

  /** Adding the time zone twice is the same as adding it once. */
  lemma AddTimezoneIdempotent(date: string)
    ensures AddTimezone(AddTimezone(date)) == AddTimezone(date)
  {
  }

  /** The validators on team-name fields: the raw name is converted and then must be one
      of the registry's names, otherwise validation fails. */
  function ParseTeamName(registry: set<string>, raw: string): (r: Option<string>)
    ensures r.Some? <==> ConvertTeamName(raw) in registry
    ensures r.Some? ==> r.value in registry && IsCanonical(r.value)
    ensures r.Some? ==> r.value == ConvertTeamName(raw)
    ensures r.Some? ==> |r.value| == |raw|
  {
    var name := ConvertTeamName(raw);
    if name in registry then Some(name) else None
  }

  /** Validating an already validated name accepts it unchanged, and validating the
      converted form of a raw name gives the same answer as validating the raw name. */
  lemma ParseTeamNameStable(registry: set<string>, raw: string)
    ensures ParseTeamName(registry, ConvertTeamName(raw)) == ParseTeamName(registry, raw)
    ensures ParseTeamName(registry, raw).Some? ==>
      ParseTeamName(registry, ParseTeamName(registry, raw).value) == ParseTeamName(registry, raw)
  {
    ConvertTeamNameIdempotent(raw);
  }
}
