/** The error `calculateCosts` raises when one side of the book is too thin. */
module Exceptions {

  /** Carries the runtime-error message and the requested and available amounts. The
      lvalue and the rvalue constructors of the source store the same three values, so one
      datatype constructor stands for both; copies of a datatype value are equal to it. */
  datatype InsufficientLiquidityException =
    InsufficientLiquidityException(message: string, requestedAmount: real, availableAmount: real)
  {
    /** `getRequestedAmount()`. */
    function GetRequestedAmount(): real
    {
      requestedAmount
    }

    /** `getAvailableAmount()`. */
    function GetAvailableAmount(): real
    {
      availableAmount
    }

    /** `what()`: the message given to the runtime-error base. */
    function What(): string
    {
      message
    }
  }

  /** The getters return what the constructor was given, and a copy answers the same. */
  lemma GettersReturnConstructorArguments(message: string, requested: real, available: real)
    ensures var e := InsufficientLiquidityException(message, requested, available);
      e.GetRequestedAmount() == requested && e.GetAvailableAmount() == available
        && e.What() == message
    ensures var e := InsufficientLiquidityException(message, requested, available); var copy := e;
      copy.GetRequestedAmount() == requested && copy.GetAvailableAmount() == available
  {
  }
}
