/** The errors of src/k8s/api.rs. */
module KubeErrors {
  import opened MachineInts

  datatype ReconcileError = BuildJson | Api | UnexpectedStatus(status: u16)
}
