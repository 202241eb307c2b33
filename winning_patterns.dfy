// The table of winning patterns (`WINNING_PATTERNS_CONFIG`, gameService.ts)
// and the upper-casing that pattern keys go through before a lookup.

module WinningPatterns {
  import opened Seqs

  /** One row of the table: the share of the prize pool the pattern pays
      out, how many tickets may win it, and (for EARLY_FIVE) how many called
      numbers it takes. */
  datatype PatternConfig = PatternConfig(
    key: string,
    prizePercentage: real,
    maxWinners: nat,
    displayName: string,
    numbersRequired: Option<nat>)

  const EarlyFive := PatternConfig("EARLY_FIVE", 0.05, 5, "Early Five", Some(5))
  const TopLine := PatternConfig("TOP_LINE", 0.10, 3, "Top Line", None)
  const MiddleLine := PatternConfig("MIDDLE_LINE", 0.10, 3, "Middle Line", None)
  const BottomLine := PatternConfig("BOTTOM_LINE", 0.10, 3, "Bottom Line", None)
  const FullHouse := PatternConfig("FULL_HOUSE", 0.40, 1, "Full House", None)

  /** `WINNING_PATTERNS_CONFIG`, in declaration order. */
  const PatternTable: seq<PatternConfig> := [EarlyFive, TopLine, MiddleLine, BottomLine, FullHouse]

  /** The entry of `table` whose key is `key`, if any. */
  function LookupIn(table: seq<PatternConfig>, key: string): (r: Option<PatternConfig>)
    ensures r.Some? <==> exists i :: 0 <= i < |table| && table[i].key == key
    ensures r.Some? ==> r.value in table && r.value.key == key
  {
    if table == [] then None
    else if table[0].key == key then Some(table[0])
    else LookupIn(table[1..], key)
  }

  /** `WINNING_PATTERNS_CONFIG[key]`: `undefined` becomes `None`. */
  function Lookup(key: string): (r: Option<PatternConfig>)
    ensures r.Some? ==> r.value in PatternTable && r.value.key == key
  {
    LookupIn(PatternTable, key)
  }

  /** The keys of the table, in order. */
  function Keys(table: seq<PatternConfig>): (ks: seq<string>)
    ensures |ks| == |table| && forall i :: 0 <= i < |table| ==> ks[i] == table[i].key
  {
    if table == [] then [] else [table[0].key] + Keys(table[1..])
  }

  /** Exactly the five keys of the table are found, each with its own row. */
  lemma LookupKnownKeys(key: string)
    ensures Lookup(key).Some? <==>
      key in ["EARLY_FIVE", "TOP_LINE", "MIDDLE_LINE", "BOTTOM_LINE", "FULL_HOUSE"]
    ensures Lookup(key).Some? ==> Lookup(key).value.key == key && Lookup(key).value in PatternTable
  {
    assert PatternTable[0].key == "EARLY_FIVE" && PatternTable[1].key == "TOP_LINE";
    assert PatternTable[2].key == "MIDDLE_LINE" && PatternTable[3].key == "BOTTOM_LINE";
    assert PatternTable[4].key == "FULL_HOUSE";
  }

  /** Every row caps its winners at one or more and pays a share in (0, 1). */
  lemma TableRowsSensible(cfg: PatternConfig)
    requires cfg in PatternTable
    ensures cfg.maxWinners >= 1 && 0.0 < cfg.prizePercentage < 1.0
    ensures cfg.numbersRequired.Some? <==> cfg.key == "EARLY_FIVE"
  {
  }

  /** The shares of all patterns, each paid out in full. */
  function TotalShare(table: seq<PatternConfig>): real
  {
    if table == [] then 0.0 else table[0].prizePercentage + TotalShare(table[1..])
  }

  /** All patterns together pay out three quarters of the pool: the other
      quarter is never promised to anyone. */
  lemma TotalShareIsThreeQuarters()
    ensures TotalShare(PatternTable) == 0.75
  {
    var t := PatternTable;
    assert t[1..][1..][1..][1..][1..] == [];
    assert TotalShare(t[1..][1..][1..][1..]) == 0.40;
    assert TotalShare(t[1..][1..][1..]) == 0.50;
    assert TotalShare(t[1..][1..]) == 0.60;
    assert TotalShare(t[1..]) == 0.70;
  }

  /** Upper-casing of one character, ASCII letters only. */
  function UpperChar(c: char): (u: char)
    ensures 'a' <= c <= 'z' ==> u as int == c as int - 32
    ensures !('a' <= c <= 'z') ==> u == c
  {
    if 'a' <= c <= 'z' then (c as int - 32) as char else c
  }

  /** `String.prototype.toUpperCase`, on ASCII letters. */
  function ToUpper(s: string): (r: string)
    ensures |r| == |s| && NoLower(r)
  {
    seq(|s|, i requires 0 <= i < |s| => UpperChar(s[i]))
  }

  /** Upper-casing twice is upper-casing once. */
  lemma ToUpperIdempotent(s: string)
    ensures ToUpper(ToUpper(s)) == ToUpper(s)
  {
    var u := ToUpper(s);
    assert forall i :: 0 <= i < |u| ==> ToUpper(u)[i] == u[i];
  }

  /** No ASCII lower-case letter in `s`. */
  predicate NoLower(s: string)
  {
    forall i :: 0 <= i < |s| ==> !('a' <= s[i] <= 'z')
  }

  lemma NoLowerIsUpper(s: string)
    requires NoLower(s)
    ensures ToUpper(s) == s
  {
  }

  /** The keys of the table are already upper case. */
  lemma KeysAreUpper()
    ensures forall i :: 0 <= i < |PatternTable| ==> ToUpper(PatternTable[i].key) == PatternTable[i].key
  {
    forall i | 0 <= i < |PatternTable|
      ensures ToUpper(PatternTable[i].key) == PatternTable[i].key
    {
      var k := PatternTable[i].key;
      if i == 0 {
        assert k == "EARLY_FIVE" && NoLower("EARLY_FIVE");
      } else if i == 1 {
        assert k == "TOP_LINE" && NoLower("TOP_LINE");
      } else if i == 2 {
        assert k == "MIDDLE_LINE" && NoLower("MIDDLE_LINE");
      } else if i == 3 {
        assert k == "BOTTOM_LINE" && NoLower("BOTTOM_LINE");
      } else {
        assert k == "FULL_HOUSE" && NoLower("FULL_HOUSE");
      }
      NoLowerIsUpper(k);
    }
  }

  /** Upper-casing leaves each key of the table as it is. */
  lemma LiteralKeysUpper()
    ensures ToUpper("EARLY_FIVE") == "EARLY_FIVE" && ToUpper("TOP_LINE") == "TOP_LINE"
    ensures ToUpper("MIDDLE_LINE") == "MIDDLE_LINE" && ToUpper("BOTTOM_LINE") == "BOTTOM_LINE"
    ensures ToUpper("FULL_HOUSE") == "FULL_HOUSE"
  {
    assert NoLower("EARLY_FIVE") && NoLower("TOP_LINE") && NoLower("MIDDLE_LINE");
    assert NoLower("BOTTOM_LINE") && NoLower("FULL_HOUSE");
    NoLowerIsUpper("EARLY_FIVE");
    NoLowerIsUpper("TOP_LINE");
    NoLowerIsUpper("MIDDLE_LINE");
    NoLowerIsUpper("BOTTOM_LINE");
    NoLowerIsUpper("FULL_HOUSE");
  }

  /** The table's keys are written in upper case, so a key given in any
      case is found exactly when it upper-cases to a key of the table. */
  lemma LookupIgnoresCase(key: string)
    ensures Lookup(ToUpper(key)).Some? <==>
      exists i :: 0 <= i < |PatternTable| && ToUpper(PatternTable[i].key) == ToUpper(key)
  {
    KeysAreUpper();
  }
}
