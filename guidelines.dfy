/**
 * The guideline vocabulary and the checkbox `change` handler that keeps the
 * set of active guidelines up to date.
 */
module Guidelines {
  import opened Wrappers
  import opened Graph

  datatype Guideline = Size | Color | Crossings | Clustering

  /** All four guidelines are active at start-up. */
  const DefaultGuidelines: set<Guideline> := {Size, Color, Crossings, Clustering}

  /** A checked box adds its guideline, an unchecked box removes it. */
  function Toggle(active: set<Guideline>, g: Guideline, checked: bool): (r: set<Guideline>)
    ensures g in r <==> checked
    ensures forall h :: h != g ==> (h in r <==> h in active)
  {
    if checked then active + {g} else active - {g}
  }

  /** The same change event twice has the effect of once. */
  lemma ToggleIdempotent(active: set<Guideline>, g: Guideline, checked: bool)
    ensures Toggle(Toggle(active, g, checked), g, checked) == Toggle(active, g, checked)
  {
  }

  /** Only the last change event of a box matters. */
  lemma ToggleLastWins(active: set<Guideline>, g: Guideline, first: bool, last: bool)
    ensures Toggle(Toggle(active, g, first), g, last) == Toggle(active, g, last)
  {
  }

  /** Change events of two different boxes commute. */
  lemma ToggleCommutes(active: set<Guideline>, g: Guideline, h: Guideline, cg: bool, ch: bool)
    requires g != h
    ensures Toggle(Toggle(active, g, cg), h, ch) == Toggle(Toggle(active, h, ch), g, cg)
  {
  }

  /** The page's global state: the dataset last loaded, if any, and the active guidelines. */
  class AppState {
    var currentData: Option<Dataset>
    var activeGuidelines: set<Guideline>

    constructor ()
      ensures currentData == None
      ensures activeGuidelines == DefaultGuidelines
    {
      currentData := None;
      activeGuidelines := DefaultGuidelines;
    }

    /**
     * The `change` listener of one guideline checkbox. It answers whether the
     * views are redrawn, which happens only once a dataset has been loaded.
     */
    method OnGuidelineChange(guideline: Guideline, checked: bool) returns (rerender: bool)
      modifies this
      ensures activeGuidelines == Toggle(old(activeGuidelines), guideline, checked)
      ensures currentData == old(currentData)
      ensures rerender <==> currentData.Some?
    {
      if checked {
        activeGuidelines := activeGuidelines + {guideline};
      } else {
        activeGuidelines := activeGuidelines - {guideline};
      }
      rerender := currentData.Some?;
    }
  }
}
