/** Team flag lookup: a fixed, ordered table from team names and short
    codes to flag strings, searched in three tiers (exact key, key equal
    ignoring case, key and name containing one another ignoring case) with a
    default string when nothing matches.  The strings are the file's text as
    written: flag emoji whose UTF-8 bytes were read back as Windows-1251, so
    India's flag is the eight characters U+0440 U+045F U+2021 U+00AE ... and
    the default is the cricket-bat emoji treated the same way. */
module TeamFlags {
  import opened Common
  import opened Strings

  datatype Entry = Entry(key: string, flag: string)

  /** The table in declaration order, which is the order a JavaScript
      object yields its (non-numeric) keys. */
  const Table: seq<Entry> := [
    Entry("India", "\U{0440}\U{045F}\U{2021}\U{00AE}\U{0440}\U{045F}\U{2021}\U{0456}"),
    Entry("Pakistan", "\U{0440}\U{045F}\U{2021}\U{00B5}\U{0440}\U{045F}\U{2021}\U{00B0}"),
    Entry("Australia", "\U{0440}\U{045F}\U{2021}\U{00A6}\U{0440}\U{045F}\U{2021}\U{0454}"),
    Entry("England", "\U{0440}\U{045F}\U{2021}\U{00AC}\U{0440}\U{045F}\U{2021}\U{00A7}"),
    Entry("South Africa", "\U{0440}\U{045F}\U{2021}\U{0457}\U{0440}\U{045F}\U{2021}\U{00A6}"),
    Entry("New Zealand", "\U{0440}\U{045F}\U{2021}\U{0456}\U{0440}\U{045F}\U{2021}\U{0457}"),
    Entry("Bangladesh", "\U{0440}\U{045F}\U{2021}\U{00A7}\U{0440}\U{045F}\U{2021}\U{00A9}"),
    Entry("Sri Lanka", "\U{0440}\U{045F}\U{2021}\U{00B1}\U{0440}\U{045F}\U{2021}\U{00B0}"),
    Entry("Afghanistan", "\U{0440}\U{045F}\U{2021}\U{00A6}\U{0440}\U{045F}\U{2021}\U{00AB}"),
    Entry("West Indies", "\U{0440}\U{045F}\U{040A}\U{0491}"),
    Entry("Ireland", "\U{0440}\U{045F}\U{2021}\U{00AE}\U{0440}\U{045F}\U{2021}\U{0404}"),
    Entry("Scotland", "\U{0440}\U{045F}\U{040F}\U{0491}\U{0443}\U{00A0}\U{0403}\U{00A7}\U{0443}\U{00A0}\U{0403}\U{045E}\U{0443}\U{00A0}\U{0403}\U{0456}\U{0443}\U{00A0}\U{0403}\U{0408}\U{0443}\U{00A0}\U{0403}\U{0491}\U{0443}\U{00A0}\U{0403}\U{0457}"),
    Entry("Netherlands", "\U{0440}\U{045F}\U{2021}\U{0456}\U{0440}\U{045F}\U{2021}\U{00B1}"),
    Entry("Nepal", "\U{0440}\U{045F}\U{2021}\U{0456}\U{0440}\U{045F}\U{2021}\U{00B5}"),
    Entry("Zimbabwe", "\U{0440}\U{045F}\U{2021}\U{0457}\U{0440}\U{045F}\U{2021}\U{0458}"),
    Entry("Namibia", "\U{0440}\U{045F}\U{2021}\U{0456}\U{0440}\U{045F}\U{2021}\U{00A6}"),
    Entry("USA", "\U{0440}\U{045F}\U{2021}\U{0454}\U{0440}\U{045F}\U{2021}\U{0451}"),
    Entry("Uganda", "\U{0440}\U{045F}\U{2021}\U{0454}\U{0440}\U{045F}\U{2021}\U{00AC}"),
    Entry("Canada", "\U{0440}\U{045F}\U{2021}\U{0401}\U{0440}\U{045F}\U{2021}\U{00A6}"),
    Entry("Oman", "\U{0440}\U{045F}\U{2021}\U{0491}\U{0440}\U{045F}\U{2021}\U{0406}"),
    Entry("UAE", "\U{0440}\U{045F}\U{2021}\U{00A6}\U{0440}\U{045F}\U{2021}\U{0404}"),
    Entry("Papua New Guinea", "\U{0440}\U{045F}\U{2021}\U{00B5}\U{0440}\U{045F}\U{2021}\U{00AC}"),
    // short codes
    Entry("IND", "\U{0440}\U{045F}\U{2021}\U{00AE}\U{0440}\U{045F}\U{2021}\U{0456}"),
    Entry("PAK", "\U{0440}\U{045F}\U{2021}\U{00B5}\U{0440}\U{045F}\U{2021}\U{00B0}"),
    Entry("AUS", "\U{0440}\U{045F}\U{2021}\U{00A6}\U{0440}\U{045F}\U{2021}\U{0454}"),
    Entry("ENG", "\U{0440}\U{045F}\U{2021}\U{00AC}\U{0440}\U{045F}\U{2021}\U{00A7}"),
    Entry("SA", "\U{0440}\U{045F}\U{2021}\U{0457}\U{0440}\U{045F}\U{2021}\U{00A6}"),
    Entry("NZ", "\U{0440}\U{045F}\U{2021}\U{0456}\U{0440}\U{045F}\U{2021}\U{0457}"),
    Entry("BAN", "\U{0440}\U{045F}\U{2021}\U{00A7}\U{0440}\U{045F}\U{2021}\U{00A9}"),
    Entry("SL", "\U{0440}\U{045F}\U{2021}\U{00B1}\U{0440}\U{045F}\U{2021}\U{00B0}"),
    Entry("AFG", "\U{0440}\U{045F}\U{2021}\U{00A6}\U{0440}\U{045F}\U{2021}\U{00AB}"),
    Entry("WI", "\U{0440}\U{045F}\U{040A}\U{0491}"),
    Entry("IRE", "\U{0440}\U{045F}\U{2021}\U{00AE}\U{0440}\U{045F}\U{2021}\U{0404}"),
    Entry("SCO", "\U{0440}\U{045F}\U{040F}\U{0491}\U{0443}\U{00A0}\U{0403}\U{00A7}\U{0443}\U{00A0}\U{0403}\U{045E}\U{0443}\U{00A0}\U{0403}\U{0456}\U{0443}\U{00A0}\U{0403}\U{0408}\U{0443}\U{00A0}\U{0403}\U{0491}\U{0443}\U{00A0}\U{0403}\U{0457}"),
    Entry("NED", "\U{0440}\U{045F}\U{2021}\U{0456}\U{0440}\U{045F}\U{2021}\U{00B1}"),
    Entry("NEP", "\U{0440}\U{045F}\U{2021}\U{0456}\U{0440}\U{045F}\U{2021}\U{00B5}"),
    Entry("ZIM", "\U{0440}\U{045F}\U{2021}\U{0457}\U{0440}\U{045F}\U{2021}\U{0458}"),
    Entry("NAM", "\U{0440}\U{045F}\U{2021}\U{0456}\U{0440}\U{045F}\U{2021}\U{00A6}"),
    Entry("AU", "\U{0440}\U{045F}\U{2021}\U{00A6}\U{0440}\U{045F}\U{2021}\U{0454}")
  ]

  const DefaultFlag: string := "\U{0440}\U{045F}\U{040F}\U{040F}"

  datatype Tier = Exact | IgnoringCase | Partial

  /** Whether the entry answers the name in the given tier.  The exact tier
      reads the object by key and tests the value for truthiness, so an
      entry with an empty flag never answers there. */
  predicate Answers(tier: Tier, e: Entry, name: string) {
    match tier
    case Exact => e.key == name && e.flag != ""
    case IgnoringCase => ToLower(e.key) == ToLower(name)
    case Partial => Contains(ToLower(name), ToLower(e.key)) || Contains(ToLower(e.key), ToLower(name))
  }

  /** The first entry, in table order, that answers the name in a tier. */
  function FirstAnswer(table: seq<Entry>, tier: Tier, name: string): (r: Option<nat>)
    ensures r.None? <==> forall i | 0 <= i < |table| :: !Answers(tier, table[i], name)
    ensures r.Some? ==> r.value < |table| && Answers(tier, table[r.value], name)
    ensures r.Some? ==> forall i | 0 <= i < r.value :: !Answers(tier, table[i], name)
  {
    if |table| == 0 then None
    else if Answers(tier, table[0], name) then Some(0)
    else
      var rest := FirstAnswer(table[1..], tier, name);
      assert forall i | 1 <= i < |table| :: table[i] == table[1..][i - 1];
      if rest.None? then None else Some(rest.value + 1)
  }

  /** `getTeamFlag` over a given table. */
  function Lookup(table: seq<Entry>, name: string): (flag: string)
    ensures flag == DefaultFlag || exists i | 0 <= i < |table| :: flag == table[i].flag
    ensures (forall i | 0 <= i < |table| ::
               !Answers(Exact, table[i], name) && !Answers(IgnoringCase, table[i], name)
               && !Answers(Partial, table[i], name))
            ==> flag == DefaultFlag
  {
    var exact := FirstAnswer(table, Exact, name);
    if exact.Some? then table[exact.value].flag
    else
      var folded := FirstAnswer(table, IgnoringCase, name);
      if folded.Some? then table[folded.value].flag
      else
        var partial := FirstAnswer(table, Partial, name);
        if partial.Some? then table[partial.value].flag
        else DefaultFlag
  }

  function GetTeamFlag(name: string): string {
    Lookup(Table, name)
  }

  /** No two entries share a key, as in any JavaScript object. */
  predicate UniqueKeys(table: seq<Entry>) {
    forall i, j | 0 <= i < j < |table| :: table[i].key != table[j].key
  }

  /** A name that is itself a key gets that key's flag. */
  lemma ExactKeyWins(table: seq<Entry>, name: string, k: nat)
    requires UniqueKeys(table)
    requires k < |table| && table[k].key == name && table[k].flag != ""
    ensures Lookup(table, name) == table[k].flag
  {
    assert Answers(Exact, table[k], name);
  }

  /** With no exact key, the first key equal to the name ignoring case wins,
      whatever later keys would match partially. */
  lemma FoldedKeyWins(table: seq<Entry>, name: string, k: nat)
    requires forall i | 0 <= i < |table| :: !Answers(Exact, table[i], name)
    requires k < |table| && ToLower(table[k].key) == ToLower(name)
    requires forall i | 0 <= i < k :: ToLower(table[i].key) != ToLower(name)
    ensures Lookup(table, name) == table[k].flag
  {
    assert Answers(IgnoringCase, table[k], name);
  }

  /** Failing both earlier tiers, the first key that contains the name, or
      is contained in it, ignoring case, wins. */
  lemma PartialKeyWins(table: seq<Entry>, name: string, k: nat)
    requires forall i | 0 <= i < |table| ::
               !Answers(Exact, table[i], name) && !Answers(IgnoringCase, table[i], name)
    requires k < |table| && Answers(Partial, table[k], name)
    requires forall i | 0 <= i < k :: !Answers(Partial, table[i], name)
    ensures Lookup(table, name) == table[k].flag
  {
  }

  /** Apart from an exact key, the lookup ignores letter case: two names
      that differ only in case get the same flag when neither is a key. */
  lemma CaseBlind(table: seq<Entry>, name: string, name': string)
    requires ToLower(name) == ToLower(name')
    requires forall i | 0 <= i < |table| :: !Answers(Exact, table[i], name) && !Answers(Exact, table[i], name')
    ensures Lookup(table, name) == Lookup(table, name')
  {
    forall i | 0 <= i < |table|
      ensures Answers(IgnoringCase, table[i], name) == Answers(IgnoringCase, table[i], name')
      ensures Answers(Partial, table[i], name) == Answers(Partial, table[i], name')
    {
    }
    assert FirstAnswer(table, IgnoringCase, name) == FirstAnswer(table, IgnoringCase, name');
    assert FirstAnswer(table, Partial, name) == FirstAnswer(table, Partial, name');
  }

  /** Every string contains the empty string, so with no empty key the empty
      name gets the first entry's flag rather than the default. */
  lemma EmptyNameGetsFirst(table: seq<Entry>)
    requires |table| > 0 && forall i | 0 <= i < |table| :: table[i].key != ""
    ensures Lookup(table, "") == table[0].flag
  {
    assert StartsWith(ToLower(table[0].key), ToLower(""));
    forall i | 0 <= i < |table|
      ensures !Answers(IgnoringCase, table[i], "")
    {
      assert |ToLower(table[i].key)| == |table[i].key|;
    }
  }

  /** The table itself: every key and every flag is non-empty. */
  lemma TableWellFormed()
    ensures |Table| == 39
    ensures forall i | 0 <= i < |Table| :: Table[i].key != "" && Table[i].flag != ""
  {
  }

  /** The empty team name shows India's flag, as the file's text spells it. */
  lemma EmptyTeamName()
    ensures GetTeamFlag("") == "\U{0440}\U{045F}\U{2021}\U{00AE}\U{0440}\U{045F}\U{2021}\U{0456}"
  {
    TableWellFormed();
    EmptyNameGetsFirst(Table);
  }
}
