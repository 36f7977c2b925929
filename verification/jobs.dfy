/**
  Background jobs. Handing a job to the queue (`.delay(task_id)`) is modelled
  as returning an event that names the job and its argument.
*/
module Jobs {
  datatype Dispatch =
    | EvaluateExtensionJob(taskId: string)  // `evaluate_extension_task.delay`
    | ReassignJob(taskId: string)           // `reassign_task.delay`
    | AssignJob(taskId: string)             // `assign_task.delay`
}
