/** Results and failure conditions shared by the filters, the estimator and the chunk sweep. */
module Common {

  /** The ways the computation in chemical_potentials.py stops without an estimate. */
  datatype Error =
    | IndexError          // a column or species index outside the array (numpy IndexError)
    | ZeroDivision        // the chunk filter divides by the size of an empty dataset
    | EmptySelection      // a mean over zero atoms; numpy yields NaN there, the model fails
    | NegativeDimensions  // fewer than four columns: np.zeros with a negative size
    | InvalidWindow       // a window that is negative or longer than the data
    | EmptyReduction      // a window of zero atoms: np.min of an empty array

  datatype Option<T> = None | Some(value: T)

  datatype Result<T> = Ok(value: T) | Err(error: Error)
}
