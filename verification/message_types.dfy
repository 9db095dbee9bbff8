/** `ServerMessageTypes`: the fixed integer codes of the game protocol and the
    table that names them for logging. */
module MessageTypes {

  const TEST := 0
  const CREATETANK := 1
  const DESPAWNTANK := 2
  const FIRE := 3
  const TOGGLEFORWARD := 4
  const TOGGLEREVERSE := 5
  const TOGGLELEFT := 6
  const TOGGLERIGHT := 7
  const TOGGLETURRETLEFT := 8
  const TOGGLETURRETRIGHT := 9
  const TURNTURRETTOHEADING := 10
  const TURNTOHEADING := 11
  const MOVEFORWARDDISTANCE := 12
  /** The attribute name is misspelt in the source; its code and printed name are not. */
  const MOVEBACKWARSDISTANCE := 13
  const STOPALL := 14
  const STOPTURN := 15
  const STOPMOVE := 16
  const STOPTURRET := 17
  const OBJECTUPDATE := 18
  const HEALTHPICKUP := 19
  const AMMOPICKUP := 20
  const SNITCHPICKUP := 21
  const DESTROYED := 22
  const ENTEREDGOAL := 23
  const KILL := 24
  const SNITCHAPPEARED := 25
  const GAMETIMEUPDATE := 26
  const HITDETECTED := 27
  const SUCCESSFULLHIT := 28

  /** The name printed for an id the table does not know. */
  const Unknown := "??UNKNOWN??"

  /** The `strings` dictionary, keyed by the named codes above. The entry for
      TOGGLETURRETRIGHT carries the source's spelling "TOGGLETURRENTRIGHT". */
  const Strings: map<int, string> := map[
    TEST := "TEST",
    CREATETANK := "CREATETANK",
    DESPAWNTANK := "DESPAWNTANK",
    FIRE := "FIRE",
    TOGGLEFORWARD := "TOGGLEFORWARD",
    TOGGLEREVERSE := "TOGGLEREVERSE",
    TOGGLELEFT := "TOGGLELEFT",
    TOGGLERIGHT := "TOGGLERIGHT",
    TOGGLETURRETLEFT := "TOGGLETURRETLEFT",
    TOGGLETURRETRIGHT := "TOGGLETURRENTRIGHT",
    TURNTURRETTOHEADING := "TURNTURRETTOHEADING",
    TURNTOHEADING := "TURNTOHEADING",
    MOVEFORWARDDISTANCE := "MOVEFORWARDDISTANCE",
    MOVEBACKWARSDISTANCE := "MOVEBACKWARDSDISTANCE",
    STOPALL := "STOPALL",
    STOPTURN := "STOPTURN",
    STOPMOVE := "STOPMOVE",
    STOPTURRET := "STOPTURRET",
    OBJECTUPDATE := "OBJECTUPDATE",
    HEALTHPICKUP := "HEALTHPICKUP",
    AMMOPICKUP := "AMMOPICKUP",
    SNITCHPICKUP := "SNITCHPICKUP",
    DESTROYED := "DESTROYED",
    ENTEREDGOAL := "ENTEREDGOAL",
    KILL := "KILL",
    SNITCHAPPEARED := "SNITCHAPPEARED",
    GAMETIMEUPDATE := "GAMETIMEUPDATE",
    HITDETECTED := "HITDETECTED",
    SUCCESSFULLHIT := "SUCCESSFULLHIT"
  ]

  /** True for the ids the protocol defines. */
  predicate IsKnown(id: int) {
    TEST <= id <= SUCCESSFULLHIT
  }

  /** `toString`: the table's name for a known id, the unknown marker otherwise.
      It is total, and a known id is never reported as unknown. */
  function ToString(id: int): (r: string)
    ensures r == Unknown <==> !IsKnown(id)
    ensures IsKnown(id) ==> id in Strings && r == Strings[id]
    ensures id == TOGGLETURRETRIGHT ==> r == "TOGGLETURRENTRIGHT"
    ensures id == MOVEBACKWARSDISTANCE ==> r == "MOVEBACKWARDSDISTANCE"
  {
    if id in Strings then Strings[id] else Unknown
  }

  /** The table defines a name for exactly the ids 0..28. */
  lemma StringsCoverKnownIds()
    ensures forall id :: id in Strings <==> IsKnown(id)
  {
  }

  /** No two protocol ids share a name, so a logged name identifies its code. */
  lemma ToStringInjective(a: int, b: int)
    requires IsKnown(a) && IsKnown(b) && a != b
    ensures ToString(a) != ToString(b)
  {
  }
}
