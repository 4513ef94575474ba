/** `extractDays`: reading the days of the week a player is available. */
module Days {
  import opened Types

  /** The accepted day characters; Sunday has three spellings, 日, 天 and 七. */
  const TargetDays: seq<char> := ['三', '四', '五', '六', '日', '天', '七', '一', '二']

  /**
   * JavaScript's `length` of a string: UTF-16 code units, so a character
   * outside the Basic Multilingual Plane counts twice.
   */
  function Utf16Length(s: string): (n: nat)
    ensures |s| <= n <= 2 * |s|
  {
    if s == [] then 0
    else Utf16Length(s[..|s| - 1]) + (if s[|s| - 1] as int >= 0x1_0000 then 2 else 1)
  }

  /** Some day character occurs twice in `s`. */
  predicate HasRepeatedDay(s: string)
  {
    exists i, j :: 0 <= i < j < |s| && s[i] == s[j] && s[i] in TargetDays
  }

  /** The day characters that occur in `s`. */
  function DaysIn(s: string): set<char>
  {
    set c | c in s && c in TargetDays
  }

  /**
   * Reject a string longer than 7 code units or one that repeats a day
   * character; otherwise map each day character present to `true`,
   * ignoring every other character.
   */
  method ExtractDays(str: string) returns (result: Option<map<char, bool>>)
    ensures Utf16Length(str) > 7 ==> result == None
    ensures result == None <==> Utf16Length(str) > 7 || HasRepeatedDay(str)
    ensures result.Some? ==> result.value.Keys == DaysIn(str)
    ensures result.Some? ==> forall c :: c in result.value ==> result.value[c]
  {
    var foundDays: map<char, bool> := map[];
    if Utf16Length(str) > 7 {
      return None;
    }
    var i := 0;
    while i < |str|
      invariant 0 <= i <= |str|
      invariant !HasRepeatedDay(str[..i])
      invariant foundDays.Keys == DaysIn(str[..i])
      invariant forall c :: c in foundDays ==> foundDays[c]
    {
      var ch := str[i];
      if ch in TargetDays {
        if ch in foundDays && foundDays[ch] {
          var k :| 0 <= k < i && str[k] == ch;
          assert str[k] == str[i];
          return None;
        }
        foundDays := foundDays[ch := true];
      }
      assert str[..i + 1] == str[..i] + [ch];
      i := i + 1;
    }
    assert str[..i] == str;
    return Some(foundDays);
  }

  /** The three spellings of Sunday are distinct keys: "日天" is accepted. */
  lemma SundaySpellingsDistinct()
    ensures !HasRepeatedDay("日天") && Utf16Length("日天") <= 7
    ensures DaysIn("日天") == {'日', '天'}
  {
    assert "日天"[..1] == "日";
  }
}
