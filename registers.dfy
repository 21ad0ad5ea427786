/**
 * The register alias resolver: symbolic register names, including the
 * language's themed aliases, mapped to register numbers.
 *
 * The themed names are tried first; every other name is handed to the
 * host simulator's own resolver, which this model takes as a parameter
 * `hostNumber` and knows nothing about.
 */
module RegisterNames {

  /** The themed aliases in register order: `ThemedAliases[k]` names register `8 + k`. */
  const ThemedAliases: seq<string> := [
    "$Elena", "$Stefan", "$Damon", "$Bonnie", "$Elijah",
    "$Caroline", "$Tyler", "$Klaus", "$Katherine", "$Jeremy",
    "$Salvatore_House", "$Mystic_Grill", "$Woods", "$The_Gilbert_House",
    "$The_Mikaelson_House", "$Lockwood_Mansion", "$Mystic_Falls_Town_Square",
    "$Mystic_Falls_High_School", "$Whitmore_College", "$Wickery_Bridge"
  ]

  /** The register number the themed alias table gives `name`, if any. */
  function ThemedNumber(name: string): (r: int)
    ensures r == -1 || 8 <= r <= 27
    ensures r != -1 ==> ThemedAliases[r - 8] == name
  {
    match name
    case "$Elena" => 8
    case "$Stefan" => 9
    case "$Damon" => 10
    case "$Bonnie" => 11
    case "$Elijah" => 12
    case "$Caroline" => 13
    case "$Tyler" => 14
    case "$Klaus" => 15
    case "$Katherine" => 16
    case "$Jeremy" => 17
    case "$Salvatore_House" => 18
    case "$Mystic_Grill" => 19
    case "$Woods" => 20
    case "$The_Gilbert_House" => 21
    case "$The_Mikaelson_House" => 22
    case "$Lockwood_Mansion" => 23
    case "$Mystic_Falls_Town_Square" => 24
    case "$Mystic_Falls_High_School" => 25
    case "$Whitmore_College" => 26
    case "$Wickery_Bridge" => 27
    case _ => -1
  }

  /** Every themed alias resolves to its own register: `ThemedAliases[k]` to `8 + k`. */
  lemma ThemedNumberOfAlias(k: int)
    requires 0 <= k < |ThemedAliases|
    ensures ThemedNumber(ThemedAliases[k]) == 8 + k
  {
  }

  /** The themed table answers exactly for the themed aliases and for no other name. */
  lemma ThemedNumberIsMembership(name: string)
    ensures ThemedNumber(name) == -1 <==> name !in ThemedAliases
  {
    if name in ThemedAliases {
      var k :| 0 <= k < |ThemedAliases| && ThemedAliases[k] == name;
      ThemedNumberOfAlias(k);
    }
  }

  /** Whether `name` is the zero register, under its themed or its canonical name. */
  predicate IsZeroName(name: string) {
    name == "$cure" || name == "$zero"
  }

  /**
   * The register number of `name`: 0 for `$cure` and `$zero`, the themed
   * alias table's number for a themed alias, and otherwise whatever the
   * host's resolver answers, unchanged.
   */
  function GetRegisterNumber(name: string, hostNumber: string -> int): (r: int)
    ensures IsZeroName(name) ==> r == 0
    ensures forall k | 0 <= k < |ThemedAliases| :: name == ThemedAliases[k] ==> r == 8 + k
    ensures !IsZeroName(name) && name !in ThemedAliases ==> r == hostNumber(name)
  {
    if IsZeroName(name) then 0
    else if ThemedNumber(name) != -1 then ThemedNumber(name)
    else hostNumber(name)
  }

  /**
   * The first position of `name` in `table`, or -1 when it does not occur:
   * a plain table lookup, the reference the resolver's switch is checked
   * against.
   */
  function Position(name: string, table: seq<string>): (r: int)
    ensures -1 <= r < |table|
    ensures r == -1 <==> name !in table
    ensures r != -1 ==> table[r] == name && forall i | 0 <= i < r :: table[i] != name
  {
    if |table| == 0 then -1
    else if table[0] == name then 0
    else if Position(name, table[1..]) == -1 then -1
    else Position(name, table[1..]) + 1
  }

  /**
   * Away from the zero register's names, the resolver is the alias table
   * lookup: a themed alias gives 8 plus its position in the table, any
   * other name the host's answer.
   */
  lemma ResolverIsTablePosition(name: string, hostNumber: string -> int)
    requires !IsZeroName(name)
    ensures name in ThemedAliases ==> GetRegisterNumber(name, hostNumber) == 8 + Position(name, ThemedAliases)
    ensures name !in ThemedAliases ==> GetRegisterNumber(name, hostNumber) == hostNumber(name)
  {
    if name in ThemedAliases {
      var p := Position(name, ThemedAliases);
      assert ThemedAliases[p] == name;
    }
  }

  /** No two positions of the themed alias table hold the same name. */
  lemma ThemedAliasesDistinct()
    ensures forall i, j | 0 <= i < j < |ThemedAliases| :: ThemedAliases[i] != ThemedAliases[j]
  {
  }

  /** Distinct themed aliases resolve to distinct registers, whatever the host's resolver does. */
  lemma ThemedAliasesInjective(a: string, b: string, hostNumber: string -> int)
    requires a in ThemedAliases && b in ThemedAliases && a != b
    ensures GetRegisterNumber(a, hostNumber) != GetRegisterNumber(b, hostNumber)
  {
    var i :| 0 <= i < |ThemedAliases| && ThemedAliases[i] == a;
    var j :| 0 <= j < |ThemedAliases| && ThemedAliases[j] == b;
    assert GetRegisterNumber(a, hostNumber) == 8 + i;
    assert GetRegisterNumber(b, hostNumber) == 8 + j;
  }
}
