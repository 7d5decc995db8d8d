/**
 * The Variable expression node (Variable.java): a named cell that is either
 * unset or holds a value, and the two runtime failures that name a variable.
 */
module Variables {
  import opened Wrappers

  /** VariableNotSetException and UnknownVariableException, by the name they carry. */
  datatype EvalError = VariableNotSet(name: string) | UnknownVariable(name: string)

  class Variable {
    /** Used only for rendering and for the error it raises. */
    const name: string
    /** The value; None stands for Java's null (not set). */
    var val: Option<real>

    /** Variable(String): a new cell starts out unset. */
    constructor (name: string)
      ensures this.name == name && !IsSet()
    {
      this.name := name;
      val := None;
    }

    /** isSet(): the cell holds a value. */
    predicate IsSet()
      reads this
    {
      val.Some?
    }

    /**
     * calculate(): the stored value, or VariableNotSet naming this variable
     * when it is unset.
     */
    function Calculate(): (r: Result<real, EvalError>)
      reads this
      ensures r.Success? <==> IsSet()
      ensures r.Failure? ==> r.error == VariableNotSet(name)
    {
      if val.None? then Failure(VariableNotSet(name)) else Success(val.value)
    }

    /** getValueOrEmpty(): empty exactly when unset, else what calculate() returns. */
    function GetValueOrEmpty(): (r: Option<real>)
      reads this
      ensures r.None? <==> !IsSet()
      ensures r.Some? ==> Calculate() == Success(r.value)
    {
      val
    }

    /** setValue(v): afterwards calculate() returns v. */
    method SetValue(v: real)
      modifies this
      ensures IsSet() && Calculate() == Success(v)
    {
      val := Some(v);
    }

    /** unsetValue(): back to the unset state, where calculate() fails. */
    method UnsetValue()
      modifies this
      ensures !IsSet() && Calculate() == Failure(VariableNotSet(name))
    {
      val := None;
    }
  }
}
