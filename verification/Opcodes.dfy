/** The instructions that call a method. */
module Opcodes {
  datatype Opcode = INVOKESTATIC | INVOKESPECIAL | INVOKEVIRTUAL | INVOKEINTERFACE

  predicate HasTarget(op: Opcode) { op != INVOKESTATIC }
}
