/** Values shared by the vertex and graph models: optional values, results
    carrying the exceptions the Java code throws, and Java's int limits. */
module Common {

  /** A vertex is identified by its label (Vertex.equals and Vertex.hashCode
      look at nothing else). */
  type Label = string

  /** Integer.MAX_VALUE, the "infinite" cost of a vertex not yet reached. */
  const INT_MAX: int := 0x7fff_ffff

  /** A Java int. */
  newtype Int32 = x: int | -0x8000_0000 <= x < 0x8000_0000

  /** A Java reference that may be null. */
  datatype Option<+T> = None | Some(value: T)

  /** Why an IllegalArgumentException was thrown. */
  datatype Reason =
    | NullLabel          // new Vertex(null)
    | NullVertices       // MyGraph(null, e)
    | NullEdges          // MyGraph(v, null)
    | NegativeWeight     // an edge weighs less than 0
    | MissingEndpoint    // an edge's source or destination is not a vertex
    | ConflictingWeight  // a second edge between the same vertices weighs differently
    | UnknownVertex      // a query names a vertex that is not in the graph

  /** The exceptions the modelled code can raise. */
  datatype Error = IllegalArgument(reason: Reason) | NullPointer

  datatype Result<+T> = Ok(value: T) | Err(error: Error)
}
