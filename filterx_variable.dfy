/**
 * The filterx variable record (struct _FilterXVariable) and its inline
 * accessors. The two flags and the generation are bitfields of one 32-bit
 * word, so a value stored into them keeps only its low bits.
 */
module FilterXVariable {
  import opened Wrappers
  import opened FilterXObjects

  /** FILTERX_SCOPE_MAX_GENERATION: `(1 << 20) - 1`, the largest value of a 20-bit field. */
  const FILTERX_SCOPE_MAX_GENERATION: nat := 0xF_FFFF

  newtype uint32 = x: int | 0 <= x < 0x1_0000_0000

  /** gboolean, a C `int`: TRUE is 1 and FALSE is 0. */
  newtype gboolean = x: int | -0x8000_0000 <= x < 0x8000_0000

  const TRUE: gboolean := 1
  const FALSE: gboolean := 0

  /** What a 20-bit unsigned bitfield can hold. */
  type Generation = g: nat | g <= FILTERX_SCOPE_MAX_GENERATION

  /**
   * Assigning `g` to the bitfield `generation:20`: a value that fits is kept,
   * a larger one is truncated to its low 20 bits and so is stored as something else.
   */
  function StoreGeneration(g: uint32): (r: Generation)
    ensures g as int <= FILTERX_SCOPE_MAX_GENERATION ==> r == g as int
    ensures g as int > FILTERX_SCOPE_MAX_GENERATION ==> r != g as int
  {
    (g as int) % (FILTERX_SCOPE_MAX_GENERATION + 1)
  }

  /**
   * Assigning a gboolean to a 1-bit unsigned bitfield keeps its lowest bit:
   * TRUE is stored as set and FALSE as clear.
   */
  function StoreBit(b: gboolean): (r: bool)
    ensures b == TRUE ==> r
    ensures b == FALSE ==> !r
  {
    (b as int) % 2 == 1
  }

  class Variable {
    /** FilterXVariableHandle */
    var handle: uint32
    /** The variable was assigned a new value. */
    var assignedFlag: bool
    /** The variable is declared (retained for the whole input pipeline). */
    var declaredFlag: bool
    var generation: Generation
    /** The value, or None when the variable holds none. */
    var value: Option<Value>

    /**
     * filterx_variable_is_declared: the 1-bit field read as a gboolean, so
     * exactly TRUE or FALSE.
     */
    function IsDeclared(): (r: gboolean)
      reads this
      ensures r == TRUE || r == FALSE
      ensures r == TRUE <==> declaredFlag
    {
      if declaredFlag then TRUE else FALSE
    }

    /**
     * filterx_variable_is_assigned: the 1-bit field read as a gboolean, so
     * exactly TRUE or FALSE.
     */
    function IsAssigned(): (r: gboolean)
      reads this
      ensures r == TRUE || r == FALSE
      ensures r == TRUE <==> assignedFlag
    {
      if assignedFlag then TRUE else FALSE
    }

    /**
     * filterx_variable_is_same_generation: the result of `==`, exactly TRUE
     * or FALSE. A generation too wide for the 20-bit field never matches.
     */
    function IsSameGeneration(g: uint32): (r: gboolean)
      reads this
      ensures r == TRUE || r == FALSE
      ensures r == TRUE <==> generation == g as int
      ensures g as int > FILTERX_SCOPE_MAX_GENERATION ==> r == FALSE
    {
      if generation == g as int then TRUE else FALSE
    }

    /**
     * filterx_variable_set_generation: the variable is then of generation
     * `g` exactly when `g` fits the field; nothing else changes.
     */
    method SetGeneration(g: uint32)
      modifies this
      ensures generation == StoreGeneration(g)
      ensures IsSameGeneration(g) == TRUE <==> g as int <= FILTERX_SCOPE_MAX_GENERATION
      ensures handle == old(handle) && assignedFlag == old(assignedFlag) && declaredFlag == old(declaredFlag)
      ensures value == old(value)
    {
      generation := StoreGeneration(g);
    }

    /** filterx_variable_unassign: clear the assigned flag; nothing else changes. */
    method Unassign()
      modifies this
      ensures IsAssigned() == FALSE
      ensures handle == old(handle) && declaredFlag == old(declaredFlag) && generation == old(generation)
      ensures value == old(value)
    {
      assignedFlag := false;
    }

    /** filterx_variable_set_declared: store the flag; nothing else changes. */
    method SetDeclared(d: gboolean)
      modifies this
      ensures IsDeclared() == TRUE <==> StoreBit(d)
      ensures d == TRUE ==> IsDeclared() == TRUE
      ensures d == FALSE ==> IsDeclared() == FALSE
      ensures handle == old(handle) && assignedFlag == old(assignedFlag) && generation == old(generation)
      ensures value == old(value)
    {
      declaredFlag := StoreBit(d);
    }
  }
}
