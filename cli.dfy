// The two argument parsers of the command-line front end (cli.py): a
// case-insensitive lookup of a priority or energy name, MEDIUM when the
// name is unknown. Argument handling, printing and dispatch are not modelled.

module Cli {
  import opened TaskModel

  /// `str.lower()` on ASCII letters; other characters are kept.
  function LowerChar(c: char): (d: char)
    ensures 'A' <= c <= 'Z' ==> d as int == c as int + 32
    ensures !('A' <= c <= 'Z') ==> d == c
  {
    if 'A' <= c <= 'Z' then (c as int + 32) as char else c
  }

  function Lower(s: string): (r: string)
    ensures |r| == |s|
  {
    if s == [] then [] else [LowerChar(s[0])] + Lower(s[1..])
  }

  /// Lower-casing works character by character.
  lemma {:induction false} LowerEachChar(s: string)
    ensures forall k :: 0 <= k < |s| ==> Lower(s)[k] == LowerChar(s[k])
  {
    if s != [] {
      LowerEachChar(s[1..]);
    }
  }

  /// Lower-casing twice is lower-casing once.
  lemma LowerIdempotent(s: string)
    ensures Lower(Lower(s)) == Lower(s)
  {
    LowerEachChar(s);
    LowerEachChar(Lower(s));
  }

  /// `parse_priority`.
  function ParsePriority(priorityStr: string): (p: Priority)
    ensures Lower(priorityStr) == "low" ==> p == Priority.Low
    ensures Lower(priorityStr) == "high" ==> p == Priority.High
    ensures Lower(priorityStr) == "urgent" ==> p == Priority.Urgent
    ensures Lower(priorityStr) !in ["low", "high", "urgent"] ==> p == Priority.Medium
  {
    var key := Lower(priorityStr);
    if key == "low" then Priority.Low
    else if key == "medium" then Priority.Medium
    else if key == "high" then Priority.High
    else if key == "urgent" then Priority.Urgent
    else Priority.Medium
  }

  /// `parse_energy`; "urgent" is not an energy level and gives MEDIUM.
  function ParseEnergy(energyStr: string): (e: EnergyLevel)
    ensures Lower(energyStr) == "low" ==> e == EnergyLevel.Low
    ensures Lower(energyStr) == "high" ==> e == EnergyLevel.High
    ensures Lower(energyStr) !in ["low", "high"] ==> e == EnergyLevel.Medium
  {
    var key := Lower(energyStr);
    if key == "low" then EnergyLevel.Low
    else if key == "medium" then EnergyLevel.Medium
    else if key == "high" then EnergyLevel.High
    else EnergyLevel.Medium
  }

  /// Letter case never matters to either parser.
  lemma ParsersIgnoreCase(s: string)
    ensures ParsePriority(Lower(s)) == ParsePriority(s)
    ensures ParseEnergy(Lower(s)) == ParseEnergy(s)
  {
    LowerIdempotent(s);
  }

  /// Every priority's enumeration name parses back to it.
  lemma ParsePriorityName(p: Priority)
    ensures ParsePriority(p.Name()) == p
  {
    match p
    case Low => assert Lower("LOW") == "low";
    case Medium => assert Lower("MEDIUM") == "medium";
    case High => assert Lower("HIGH") == "high";
    case Urgent => assert Lower("URGENT") == "urgent";
  }

  /// Every energy level's enumeration name parses back to it.
  lemma ParseEnergyName(e: EnergyLevel)
    ensures ParseEnergy(e.Name()) == e
  {
    match e
    case Low => assert Lower("LOW") == "low";
    case Medium => assert Lower("MEDIUM") == "medium";
    case High => assert Lower("HIGH") == "high";
  }
}
