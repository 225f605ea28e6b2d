/** The kinds of operations that telemetry distinguishes. */
module OpKinds {
  datatype OpKind = Gemm | Gemv | Elementwise | Reduction | Attention | Conv2D | GraphReplay | Memcpy | Other
}
