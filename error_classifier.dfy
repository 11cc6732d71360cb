/** sqlStateIn: whether a driver's SQLSTATE belongs to one of the listed
    categories of the query-writer interface. */
module ErrorClassifier {

  /** The SQLSTATE codes SQL Server reports for a missing table, a missing
      column and an integrity constraint violation. */
  const STATE_NO_SUCH_TABLE: string := "42S02"
  const STATE_NO_SUCH_COLUMN: string := "42S22"
  const STATE_INTEGRITY_VIOLATION: string := "23000"

  /** The marker a state outside the map is looked up as. */
  const UNKNOWN: string := "0"

  /** The three category constants of the query-writer interface. Their
      values are defined outside this model; all it relies on is that they
      are distinct from each other and from UNKNOWN. */
  datatype Categories = Categories(noSuchTable: string, noSuchColumn: string, integrityViolation: string)
  {
    predicate Distinct()
    {
      noSuchTable != noSuchColumn && noSuchTable != integrityViolation &&
      noSuchColumn != integrityViolation &&
      UNKNOWN != noSuchTable && UNKNOWN != noSuchColumn && UNKNOWN != integrityViolation
    }

    /** A category constant. */
    predicate IsCategory(c: string)
    {
      c == noSuchTable || c == noSuchColumn || c == integrityViolation
    }
  }

  /** The state map: a known state gives its category, any other state the
      unknown marker. */
  function CategoryOf(cats: Categories, state: string): (r: string)
    ensures r == UNKNOWN || cats.IsCategory(r)
  {
    if state == STATE_NO_SUCH_TABLE then cats.noSuchTable
    else if state == STATE_NO_SUCH_COLUMN then cats.noSuchColumn
    else if state == STATE_INTEGRITY_VIOLATION then cats.integrityViolation
    else UNKNOWN
  }

  /** sqlStateIn: the state's category is one of the listed ones. State by
      state: each known state is in the list exactly when its own category
      is, and any other state exactly when the unknown marker is. */
  function SqlStateIn(cats: Categories, state: string, list: seq<string>): (r: bool)
    ensures r <==>
      (state == STATE_NO_SUCH_TABLE && cats.noSuchTable in list) ||
      (state == STATE_NO_SUCH_COLUMN && cats.noSuchColumn in list) ||
      (state == STATE_INTEGRITY_VIOLATION && cats.integrityViolation in list) ||
      (!IsKnownState(state) && UNKNOWN in list)
  {
    CategoryOf(cats, state) in list
  }

  predicate IsKnownState(state: string)
  {
    state == STATE_NO_SUCH_TABLE || state == STATE_NO_SUCH_COLUMN || state == STATE_INTEGRITY_VIOLATION
  }

  /** With distinct categories, a state is looked up as the unknown marker
      exactly when it is not one of the three known states. */
  lemma UnknownExactly(cats: Categories, state: string)
    requires cats.Distinct()
    ensures CategoryOf(cats, state) == UNKNOWN <==> !IsKnownState(state)
  {
  }

  /** A state outside the map is in no list made of category constants. */
  lemma UnknownStateInNoList(cats: Categories, state: string, list: seq<string>)
    requires cats.Distinct()
    requires !IsKnownState(state)
    requires forall c :: c in list ==> cats.IsCategory(c)
    ensures !SqlStateIn(cats, state, list)
  {
  }

  /** With distinct categories, distinct known states never answer for each
      other: the state map is one-to-one on known states. */
  lemma CategoryOfInjective(cats: Categories, s: string, t: string)
    requires cats.Distinct()
    requires IsKnownState(s) && IsKnownState(t)
    requires CategoryOf(cats, s) == CategoryOf(cats, t)
    ensures s == t
  {
  }

  /** A list holding only the category of one known state accepts that
      state and rejects every other state. */
  lemma SingleCategoryList(cats: Categories, s: string, state: string)
    requires cats.Distinct() && IsKnownState(s)
    ensures SqlStateIn(cats, state, [CategoryOf(cats, s)]) <==> state == s
  {
    if SqlStateIn(cats, state, [CategoryOf(cats, s)]) {
      UnknownExactly(cats, state);
      CategoryOfInjective(cats, s, state);
    }
  }
}
